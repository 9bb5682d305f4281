/** The string helpers of the .NET base library that the core calls:
    `char.IsWhiteSpace`, `string.IsNullOrWhiteSpace`, `string.Contains`,
    `Path.GetExtension` and lower-casing. */
module Text {
  import opened Core

  /** `char.IsWhiteSpace`: the Unicode space, line and paragraph separators
      plus the control characters U+0009..U+000D and U+0085. */
  predicate IsWhiteSpace(c: char) {
    || c == ' '
    || ('\t' <= c <= '\r')
    || c == '\U{0085}'
    || c == '\U{00A0}'
    || c == '\U{1680}'
    || ('\U{2000}' <= c <= '\U{200A}')
    || c == '\U{2028}'
    || c == '\U{2029}'
    || c == '\U{202F}'
    || c == '\U{205F}'
    || c == '\U{3000}'
  }

  /** `string.IsNullOrWhiteSpace` of a non-null string. */
  predicate IsBlank(s: string) {
    forall i :: 0 <= i < |s| ==> IsWhiteSpace(s[i])
  }

  /** `string.IsNullOrWhiteSpace` of a nullable string. */
  predicate IsNullOrWhiteSpace(s: Option<string>) {
    s.None? || IsBlank(s.value)
  }

  /** `string.IsNullOrEmpty` of a nullable string. */
  predicate IsNullOrEmpty(s: Option<string>) {
    s.None? || |s.value| == 0
  }

  /** `s.Contains(t)`: ordinal substring containment. */
  predicate Contains(s: string, t: string) {
    exists i :: 0 <= i <= |s| - |t| && OccursAt(s, t, i)
  }

  /** `t` occurs in `s` starting at position `i`. */
  predicate OccursAt(s: string, t: string, i: int) {
    0 <= i <= |s| - |t| && s[i..i + |t|] == t
  }

  lemma ContainsItself(s: string)
    ensures Contains(s, s)
  {
    assert OccursAt(s, s, 0);
  }

  /** Lower-casing of one character. Only ASCII letters are mapped; no other
      character lower-cases to one of the ASCII letters the core compares
      against. */
  function ToLowerChar(c: char): (r: char)
    ensures 'A' <= c <= 'Z' ==> 'a' <= r <= 'z'
    ensures !('A' <= c <= 'Z') ==> r == c
  {
    if 'A' <= c <= 'Z' then (c as int + 32) as char else c
  }

  /** `ToLowerInvariant` restricted to the ASCII letters. */
  function ToLower(s: string): (r: string)
    ensures |r| == |s|
    ensures forall i :: 0 <= i < |s| ==> r[i] == ToLowerChar(s[i])
  {
    seq(|s|, i requires 0 <= i < |s| => ToLowerChar(s[i]))
  }

  /** Upper-casing of ASCII letters, used for case-insensitive name matching. */
  function ToUpperChar(c: char): (r: char)
    ensures 'a' <= c <= 'z' ==> 'A' <= r <= 'Z'
    ensures !('a' <= c <= 'z') ==> r == c
  {
    if 'a' <= c <= 'z' then (c as int - 32) as char else c
  }

  function ToUpper(s: string): (r: string)
    ensures |r| == |s|
    ensures forall i :: 0 <= i < |s| ==> r[i] == ToUpperChar(s[i])
  {
    seq(|s|, i requires 0 <= i < |s| => ToUpperChar(s[i]))
  }

  /** The directory separator of the (Unix) host. */
  const DirectorySeparator: char := '/'

  /** Position `k` starts the extension of `path`: a dot that is not the last
      character and after which no dot or directory separator follows. */
  predicate IsExtensionStart(path: string, k: int) {
    && 0 <= k < |path| - 1
    && path[k] == '.'
    && forall j :: k < j < |path| ==> path[j] != '.' && path[j] != DirectorySeparator
  }

  /** `Path.GetExtension`: the suffix from the last dot of the file name, or
      empty when the name has no dot or ends with one. */
  function Extension(path: string): (ext: string)
    ensures ext == [] || exists k :: IsExtensionStart(path, k) && ext == path[k..]
    ensures forall k :: IsExtensionStart(path, k) ==> ext == path[k..]
  {
    ExtensionScan(path, |path|)
  }

  /** The backward scan behind `Extension`: positions `i..` have already been
      passed over and hold neither a dot nor a separator. */
  function ExtensionScan(path: string, i: nat): (ext: string)
    requires i <= |path|
    requires forall j :: i <= j < |path| ==> path[j] != '.' && path[j] != DirectorySeparator
    ensures ext == [] || exists k :: IsExtensionStart(path, k) && ext == path[k..]
    ensures forall k :: IsExtensionStart(path, k) ==> ext == path[k..]
    decreases i
  {
    if i == 0 then []
    else if path[i - 1] == '.' then
      (if i == |path| then [] else assert IsExtensionStart(path, i - 1); path[i - 1..])
    else if path[i - 1] == DirectorySeparator then []
    else ExtensionScan(path, i - 1)
  }

  /** An extension is never longer than the path and always starts with a dot. */
  lemma ExtensionShape(path: string)
    ensures Extension(path) == [] || (Extension(path)[0] == '.' && 2 <= |Extension(path)| <= |path|)
  {
  }
}
