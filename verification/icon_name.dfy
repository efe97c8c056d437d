/** The icon name the upload flow derives from the selected file's name:
    `name.replace(/\.[^/.]+$/, "").replaceAll(".", "_")`.
    The first call removes a trailing extension, the second turns every
    remaining '.' into '_'. */
module IconName {
  import Strings

  /** The regular expression `\.[^/.]+$` matches `s` starting at index `k`:
      `s[k]` is a '.', at least one character follows it, and no character
      after it is '/' or '.'. The anchor `$` (no multiline flag) forces the
      match to run to the end of `s`, so a match at `k` covers exactly `s[k..]`. */
  ghost predicate ExtensionMatchAt(s: string, k: int) {
    && 0 <= k < |s| - 1
    && s[k] == '.'
    && forall j :: k < j < |s| ==> s[j] != '/' && s[j] != '.'
  }

  /** The regular expression matches `s` somewhere. */
  ghost predicate HasExtension(s: string) {
    exists k :: ExtensionMatchAt(s, k)
  }

  /** The character `replaceAll(".", "_")` leaves at a position holding `c`. */
  function Underscored(c: char): char {
    if c == '.' then '_' else c
  }

  /** `s.replace(/\.[^/.]+$/, "")`: a non-global `replace` removes the leftmost
      match. Only the last '.' can start a match, so the code looks there. */
  function StripExtension(s: string): (r: string)
    ensures forall k :: ExtensionMatchAt(s, k) ==> r == s[..k]
    ensures !HasExtension(s) ==> r == s
  {
    var k := Strings.LastIndexOf(s, '.');
    ExtensionIffLastDot(s);
    if 0 <= k < |s| - 1 && '/' !in s[k + 1..] then
      s[..k]
    else
      s
  }

  /** `s.replaceAll(".", "_")` with a literal one-character pattern. */
  function ReplaceDots(s: string): (r: string)
    ensures |r| == |s|
    ensures forall i :: 0 <= i < |s| ==> r[i] == Underscored(s[i])
  {
    seq(|s|, i requires 0 <= i < |s| => Underscored(s[i]))
  }

  /** The name submitted with an uploaded icon, derived from the file name.
      The result is the '.'-to-'_' image of a prefix of `fileName`: the prefix
      before the extension when the regular expression matches, the whole name
      otherwise. */
  function DeriveIconName(fileName: string): (r: string)
    ensures '.' !in r
    ensures |r| <= |fileName|
    ensures forall i :: 0 <= i < |r| ==> r[i] == Underscored(fileName[i])
    ensures forall k :: ExtensionMatchAt(fileName, k) ==> |r| == k
    ensures !HasExtension(fileName) ==> |r| == |fileName|
  {
    ReplaceDots(StripExtension(fileName))
  }

  /** At most one position starts a match, so "leftmost match" and "the match"
      are the same thing. */
  lemma ExtensionUnique(s: string, k: int)
    requires ExtensionMatchAt(s, k)
    ensures forall k' :: ExtensionMatchAt(s, k') ==> k' == k
  {
  }

  /** The pattern matches exactly when the last '.' is followed by at least
      one character and none of those is '/'. */
  lemma ExtensionIffLastDot(s: string)
    ensures HasExtension(s) <==>
      var k := Strings.LastIndexOf(s, '.');
      0 <= k < |s| - 1 && '/' !in s[k + 1..]
  {
    var k := Strings.LastIndexOf(s, '.');
    if 0 <= k < |s| - 1 && '/' !in s[k + 1..] {
      assert ExtensionMatchAt(s, k) by {
        forall j | k < j < |s| ensures s[j] != '/' && s[j] != '.' {
          assert s[j] == s[k + 1..][j - k - 1];
        }
      }
    }
  }

  /** A file name without any '.' is submitted unchanged. */
  lemma NoDotUnchanged(fileName: string)
    requires '.' !in fileName
    ensures DeriveIconName(fileName) == fileName
  {
    // Follows from DeriveIconName's contract: with no '.', nothing matches,
    // so the result has the full length and every character is kept.
  }

  /** Deriving a name from a derived name changes nothing. */
  lemma DeriveIdempotent(fileName: string)
    ensures DeriveIconName(DeriveIconName(fileName)) == DeriveIconName(fileName)
  {
    NoDotUnchanged(DeriveIconName(fileName));
  }

  /** No characters are removed exactly when the regular expression does not
      match; when it matches, the extension and its '.' (at least two
      characters) are removed. */
  lemma StrippedIffExtension(fileName: string)
    ensures |DeriveIconName(fileName)| < |fileName| <==> HasExtension(fileName)
    ensures HasExtension(fileName) ==> |DeriveIconName(fileName)| <= |fileName| - 2
  {
    if HasExtension(fileName) {
      var k :| ExtensionMatchAt(fileName, k);
      assert |DeriveIconName(fileName)| == k;
    }
  }

  /** Several dots: only the last one starts the extension. */
  lemma ExampleVersionedName()
    ensures DeriveIconName("my.icon.v2.png") == "my_icon_v2"
  {
    assert ExtensionMatchAt("my.icon.v2.png", 10);
    assert StripExtension("my.icon.v2.png") == "my.icon.v2";
    assert ReplaceDots("my.icon.v2") == "my_icon_v2";
  }

  /** A double extension loses only its last part. */
  lemma ExampleDoubleExtension()
    ensures DeriveIconName("x.tar.gz") == "x_tar"
  {
    assert ExtensionMatchAt("x.tar.gz", 5);
    assert StripExtension("x.tar.gz") == "x.tar";
    assert ReplaceDots("x.tar") == "x_tar";
  }

  /** An upper-case extension is stripped like any other. */
  lemma ExampleUpperCaseExtension()
    ensures DeriveIconName("Logo.PNG") == "Logo"
  {
    assert ExtensionMatchAt("Logo.PNG", 4);
    assert StripExtension("Logo.PNG") == "Logo";
  }

  /** A trailing '.' with nothing after it is not an extension. */
  lemma ExampleTrailingDot()
    ensures DeriveIconName("file.") == "file_"
  {
    assert StripExtension("file.") == "file.";
    assert ReplaceDots("file.") == "file_";
  }

  /** A '/' after the last '.' prevents the match. */
  lemma ExampleSlashAfterDot()
    ensures DeriveIconName("a.b/c") == "a_b/c"
  {
    assert StripExtension("a.b/c") == "a.b/c";
    assert ReplaceDots("a.b/c") == "a_b/c";
  }

  /** A name that is all extension becomes empty. */
  lemma ExampleHiddenFile()
    ensures DeriveIconName(".hidden") == ""
  {
    assert ExtensionMatchAt(".hidden", 0);
  }
}
