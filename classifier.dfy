/**
 * The classifier: maps a filesystem entry to the semantic type stored in the
 * `file_type` column. An entry is passed abstractly, as a flag saying whether
 * it is a directory and the suffix of its name (`Path.suffix`).
 */
module Classifier {

  const Directory := "directory"
  const Image := "image"
  const Video := "video"
  const Other := "other"

  /** Every value `FileType` can produce. */
  const Kinds: set<string> := {Directory, Image, Video, Other}

  const ImageSuffixes: set<string> := {".jpg", ".jpeg"}
  const VideoSuffixes: set<string> := {".mp4", ".blk"}

  const Kelvin: char := '\U{212A}'

  /**
   * Lower case of one character, as far as classification can tell:
   * ASCII upper-case letters, and the Kelvin sign, whose Unicode lower case
   * is the ASCII letter 'k'. No other character lower-cases into the ASCII
   * letters and digits that the suffix sets are written in, so for deciding
   * membership in those sets this agrees with full Unicode lower-casing.
   */
  function LowerChar(c: char): char {
    if 'A' <= c <= 'Z' then (c as int + 32) as char
    else if c == Kelvin then 'k'
    else c
  }

  function Lower(s: string): string {
    seq(|s|, i requires 0 <= i < |s| => LowerChar(s[i]))
  }

  /** The type recorded for an entry; a directory is a directory whatever its name. */
  function FileType(isDir: bool, suffix: string): (t: string)
    ensures t in Kinds
    ensures t == Directory <==> isDir
  {
    if isDir then Directory
    else
      var extension := Lower(suffix);
      if extension in ImageSuffixes then Image
      else if extension in VideoSuffixes then Video
      else Other
  }

  /**
   * Reference definition of a case-insensitive spelling: `s` spells the
   * lower-case word `w` when every character of `s` is the matching
   * character of `w` or its upper-case form (for 'k' also the Kelvin sign).
   */
  predicate Spells(s: string, w: string) {
    && |s| == |w|
    && forall i :: 0 <= i < |s| ==>
         || s[i] == w[i]
         || ('a' <= w[i] <= 'z' && s[i] as int == w[i] as int - 32)
         || (w[i] == 'k' && s[i] == Kelvin)
  }

  /** A word with no upper-case ASCII letter and no Kelvin sign. */
  predicate IsLowerWord(w: string) {
    forall i :: 0 <= i < |w| ==> !('A' <= w[i] <= 'Z') && w[i] != Kelvin
  }

  lemma LowerMatchesSpelling(s: string, w: string)
    requires IsLowerWord(w)
    ensures Lower(s) == w <==> Spells(s, w)
  {
    if Spells(s, w) {
      forall i | 0 <= i < |s| ensures Lower(s)[i] == w[i] {
      }
    }
    if Lower(s) == w {
      forall i | 0 <= i < |s|
        ensures || s[i] == w[i]
                || ('a' <= w[i] <= 'z' && s[i] as int == w[i] as int - 32)
                || (w[i] == 'k' && s[i] == Kelvin)
      {
        assert LowerChar(s[i]) == w[i];
      }
    }
  }

  /**
   * A non-directory classifies as an image exactly when its suffix spells
   * `.jpg` or `.jpeg` in any mix of cases, as a video exactly when it spells
   * `.mp4` or `.blk`, and as "other" otherwise.
   */
  lemma ClassifyBySuffix(suffix: string)
    ensures FileType(false, suffix) == Image <==> Spells(suffix, ".jpg") || Spells(suffix, ".jpeg")
    ensures FileType(false, suffix) == Video <==> Spells(suffix, ".mp4") || Spells(suffix, ".blk")
    ensures FileType(false, suffix) == Other <==>
              !(Spells(suffix, ".jpg") || Spells(suffix, ".jpeg") || Spells(suffix, ".mp4") || Spells(suffix, ".blk"))
  {
    LowerMatchesSpelling(suffix, ".jpg");
    LowerMatchesSpelling(suffix, ".jpeg");
    LowerMatchesSpelling(suffix, ".mp4");
    LowerMatchesSpelling(suffix, ".blk");
  }

  /** Classification depends on the suffix only up to case. */
  lemma ClassifyIgnoresCase(isDir: bool, s: string, s': string)
    requires Lower(s) == Lower(s')
    ensures FileType(isDir, s) == FileType(isDir, s')
  {
  }

  /**
   * `.jpg` and `.JPEG` are images, `.mp4` and `.blk` are videos, `.txt` is
   * other, and a directory is a directory whatever its suffix.
   */
  lemma Examples()
    ensures FileType(false, ".jpg") == Image
    ensures FileType(false, ".JPEG") == Image
    ensures FileType(false, ".mp4") == Video
    ensures FileType(false, ".blk") == Video
    ensures FileType(false, ".txt") == Other
    ensures FileType(true, ".jpg") == Directory
  {
    assert Lower(".jpg") == ".jpg";
    assert Lower(".JPEG") == ".jpeg";
    assert Lower(".mp4") == ".mp4";
    assert Lower(".blk") == ".blk";
    assert Lower(".txt") == ".txt";
  }
}
