/** The upload gate (`allowed_file`): a file name is accepted when the text
    after its last dot, lower-cased, is one of the allowed audio formats. */
module Uploads {
  import opened Wrappers
  import opened Text

  const AllowedExtensions: set<string> := {"wav", "mp3", "flac", "m4a"}

  /** Index `i` holds the last dot of `s`. */
  ghost predicate IsLastDot(s: string, i: int)
  {
    0 <= i < |s| && s[i] == '.' && forall j :: i < j < |s| ==> s[j] != '.'
  }

  /** The position `rsplit('.', 1)` splits at, scanning from the right. */
  function LastDot(s: string): (r: Option<nat>)
    ensures r.None? <==> '.' !in s
    ensures r.Some? ==> IsLastDot(s, r.value)
  {
    if |s| == 0 then None
    else if s[|s| - 1] == '.' then Some(|s| - 1)
    else
      assert s == s[..|s| - 1] + [s[|s| - 1]];
      LastDot(s[..|s| - 1])
  }

  /** `filename.rsplit('.', 1)[1]` when the name has a dot: the text after
      the last dot, which itself has no dot. */
  function Extension(filename: string): (r: Option<string>)
    ensures r.None? <==> '.' !in filename
    ensures r.Some? ==> '.' !in r.value
    ensures r.Some? ==> exists i :: IsLastDot(filename, i) && r.value == filename[i + 1..]
  {
    match LastDot(filename)
    case None => None
    case Some(i) =>
      var ext := filename[i + 1..];
      assert forall k :: 0 <= k < |ext| ==> ext[k] == filename[i + 1 + k];
      Some(ext)
  }

  /** `allowed_file(filename)`. */
  function AllowedFile(filename: string): (b: bool)
    ensures b <==> exists i :: IsLastDot(filename, i) && Lower(filename[i + 1..]) in AllowedExtensions
  {
    match Extension(filename)
    case None => false
    case Some(ext) => Lower(ext) in AllowedExtensions
  }

  /** A string has at most one last dot. */
  lemma LastDotUnique(s: string, i: int, j: int)
    requires IsLastDot(s, i) && IsLastDot(s, j)
    ensures i == j
  {
  }

  /** Splitting a name built from a base, a dot and a dot-free suffix gives
      the suffix back, whatever dots the base holds. */
  lemma ExtensionRoundTrip(base: string, ext: string)
    requires '.' !in ext
    ensures Extension(base + "." + ext) == Some(ext)
  {
    var s := base + "." + ext;
    assert IsLastDot(s, |base|) by {
      forall j | |base| < j < |s|
        ensures s[j] != '.'
      {
        assert s[j] == ext[j - |base| - 1];
      }
    }
    var i :| IsLastDot(s, i) && Extension(s).value == s[i + 1..];
    LastDotUnique(s, i, |base|);
    assert s[|base| + 1..] == ext;
  }

  /** Only the last suffix decides, in any letter case. */
  lemma AllowedIffExtensionAllowed(base: string, ext: string)
    requires '.' !in ext
    ensures AllowedFile(base + "." + ext) <==> Lower(ext) in AllowedExtensions
  {
    ExtensionRoundTrip(base, ext);
  }

  /** The last suffix decides, in any letter case: "a.tar.WAV" is
      accepted. */
  lemma UpperCaseLastSuffixAccepted()
    ensures AllowedFile("a.tar.WAV")
  {
    AllowedIffExtensionAllowed("a.tar", "WAV");
    assert Lower("WAV") == "wav";
  }

  /** A name without a dot is rejected, even when it spells a format. */
  lemma NoDotRejected()
    ensures !AllowedFile("wav")
  {
    assert '.' !in "wav";
  }

  /** A name that is only a dot and a format is accepted: the text before
      the dot may be empty. */
  lemma BareExtensionAccepted()
    ensures AllowedFile(".mp3")
  {
    assert ".mp3" == "" + "." + "mp3";
    AllowedIffExtensionAllowed("", "mp3");
    LowerFixed("mp3");
  }

  /** A trailing dot leaves an empty suffix, which is rejected. */
  lemma EmptySuffixRejected()
    ensures !AllowedFile("x.")
  {
    AllowedIffExtensionAllowed("x", "");
  }

  /** An allowed format before the last dot does not count. */
  lemma EarlierSuffixIgnored()
    ensures !AllowedFile("song.wav.txt")
  {
    AllowedIffExtensionAllowed("song.wav", "txt");
    LowerFixed("txt");
  }
}
