/** The string operations of Go's standard library that the modelled code calls. */
module Text {

  datatype Option<+T> = None | Some(value: T)

  /** unicode.IsSpace. */
  predicate IsSpace(c: char) {
    || '\t' <= c <= '\r' || c == ' ' || c == '\U{85}' || c == '\U{A0}' || c == '\U{1680}'
    || '\U{2000}' <= c <= '\U{200A}' || c == '\U{2028}' || c == '\U{2029}' || c == '\U{202F}'
    || c == '\U{205F}' || c == '\U{3000}'
  }

  function TrimLeft(s: string): string {
    if s != "" && IsSpace(s[0]) then TrimLeft(s[1..]) else s
  }

  function TrimRight(s: string): string {
    if s != "" && IsSpace(s[|s| - 1]) then TrimRight(s[..|s| - 1]) else s
  }

  lemma {:induction false} TrimLeftIs(s: string)
    ensures var r := TrimLeft(s);
      && (r == "" || !IsSpace(r[0])) && |r| <= |s| && r == s[|s| - |r|..]
      && forall i :: 0 <= i < |s| - |r| ==> IsSpace(s[i])
  {
    if s != "" && IsSpace(s[0]) { TrimLeftIs(s[1..]); }
  }

  lemma {:induction false} TrimRightIs(s: string)
    ensures var r := TrimRight(s);
      && (r == "" || !IsSpace(r[|r| - 1])) && |r| <= |s| && r == s[..|r|]
      && forall i :: |r| <= i < |s| ==> IsSpace(s[i])
  {
    if s != "" && IsSpace(s[|s| - 1]) { TrimRightIs(s[..|s| - 1]); }
  }

  /** strings.TrimSpace. */
  function Trim(s: string): string {
    TrimRight(TrimLeft(s))
  }

  predicate Trimmed(s: string) {
    s == "" || (!IsSpace(s[0]) && !IsSpace(s[|s| - 1]))
  }

  lemma TrimFixesTrimmed(s: string)
    ensures Trimmed(Trim(s))
    ensures Trim(s) == s <==> Trimmed(s)
  {
    var l := TrimLeft(s);
    var r := TrimRight(l);
    TrimLeftIs(s);
    TrimRightIs(l);
    if r != "" { assert r[0] == l[0]; }
    if Trimmed(s) && s != "" {
      assert s[0] !in s[..0];
      assert |l| == |s|;
      assert |r| == |l|;
    }
  }

  /** strings.TrimLeft, strings.TrimRight and strings.Trim with a set of characters. */
  function CutLeft(s: string, cut: string): string {
    if s != "" && s[0] in cut then CutLeft(s[1..], cut) else s
  }

  function CutRight(s: string, cut: string): string {
    if s != "" && s[|s| - 1] in cut then CutRight(s[..|s| - 1], cut) else s
  }

  lemma {:induction false} CutLeftIs(s: string, cut: string)
    ensures var r := CutLeft(s, cut);
      (r == "" || r[0] !in cut) && |r| <= |s| && r == s[|s| - |r|..]
  {
    if s != "" && s[0] in cut { CutLeftIs(s[1..], cut); }
  }

  lemma {:induction false} CutRightIs(s: string, cut: string)
    ensures var r := CutRight(s, cut);
      (r == "" || r[|r| - 1] !in cut) && |r| <= |s| && r == s[..|r|]
  {
    if s != "" && s[|s| - 1] in cut { CutRightIs(s[..|s| - 1], cut); }
  }

  function Cut(s: string, cut: string): string {
    CutRight(CutLeft(s, cut), cut)
  }

  predicate StartsAt(s: string, pat: string, i: int) {
    0 <= i && i + |pat| <= |s| && s[i..i + |pat|] == pat
  }

  lemma StartsAtChars(s: string, pat: string, i: int)
    requires StartsAt(s, pat, i)
    ensures forall k :: 0 <= k < |pat| ==> s[i + k] == pat[k]
  {
    forall k | 0 <= k < |pat| ensures s[i + k] == pat[k] {
      assert s[i..i + |pat|][k] == s[i + k];
    }
  }

  function IndexFrom(s: string, pat: string, i: nat): (r: int)
    requires i <= |s|
    ensures r == -1 || i <= r
    ensures r >= 0 ==> StartsAt(s, pat, r)
    ensures forall k :: i <= k && (r < 0 || k < r) ==> !StartsAt(s, pat, k)
    decreases |s| - i
  {
    if StartsAt(s, pat, i) then i
    else if i == |s| then -1
    else IndexFrom(s, pat, i + 1)
  }

  /** strings.Index: the first occurrence, or -1. */
  function IndexOf(s: string, pat: string): (r: int)
    ensures -1 <= r
    ensures r >= 0 ==> StartsAt(s, pat, r)
    ensures forall k :: (r < 0 || k < r) ==> !StartsAt(s, pat, k)
  {
    IndexFrom(s, pat, 0)
  }

  /** strings.Contains. */
  predicate Contains(s: string, pat: string) {
    IndexOf(s, pat) >= 0
  }

  lemma ContainsAt(s: string, pat: string, i: int)
    requires StartsAt(s, pat, i)
    ensures Contains(s, pat)
    ensures IndexOf(s, pat) <= i
  {
  }

  /** SQLite's BINARY collation on text. */
  predicate Less(a: string, b: string) {
    if b == "" then false
    else if a == "" then true
    else a[0] < b[0] || (a[0] == b[0] && Less(a[1..], b[1..]))
  }

  lemma {:induction false} LessTotal(a: string, b: string)
    ensures Less(a, b) || Less(b, a) || a == b
    ensures !(Less(a, b) && Less(b, a))
    ensures !Less(a, a)
  {
    if a != "" && b != "" {
      LessTotal(a[1..], b[1..]);
      assert a == [a[0]] + a[1..] && b == [b[0]] + b[1..];
    }
    if a != "" { LessIrreflexive(a); }
  }

  lemma {:induction false} LessIrreflexive(a: string)
    ensures !Less(a, a)
  {
    if a != "" { LessIrreflexive(a[1..]); }
  }

  lemma {:induction false} LessTransitive(a: string, b: string, c: string)
    requires Less(a, b) && Less(b, c)
    ensures Less(a, c)
  {
    if a != "" && a[0] == b[0] && b[0] == c[0] {
      LessTransitive(a[1..], b[1..], c[1..]);
    }
  }
}
