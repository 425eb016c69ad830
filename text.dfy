/** The pieces of Go's `strings` and `unicode` packages that the command-line
    service relies on: searching a sequence, `strings.Join`, `unicode.IsSpace`
    and `strings.TrimSpace`. */
module Text {

  datatype Option<+T> = None | Some(value: T)

  /** The first index at or after `from` where `xs` holds `x`, if any. */
  function Find<T(==)>(xs: seq<T>, x: T, from: nat): (r: Option<nat>)
    ensures r.Some? ==> from <= r.value < |xs| && xs[r.value] == x
    ensures r.Some? ==> forall k :: from <= k < r.value ==> xs[k] != x
    ensures r.None? ==> forall k :: from <= k < |xs| ==> xs[k] != x
    decreases |xs| - from
  {
    if from >= |xs| then None
    else if xs[from] == x then Some(from)
    else Find(xs, x, from + 1)
  }

  /** `Find` returns the first occurrence. */
  lemma FindUnique<T>(xs: seq<T>, x: T, from: nat, j: nat)
    requires from <= j < |xs| && xs[j] == x
    requires forall k :: from <= k < j ==> xs[k] != x
    ensures Find(xs, x, from) == Some(j)
  {
  }

  /** `strings.Join(parts, sep)`: the parts in order, one `sep` between
      neighbours, nothing before the first or after the last. */
  function Join(parts: seq<string>, sep: string): (r: string)
    ensures parts == [] ==> r == ""
    ensures |parts| == 1 ==> r == parts[0]
    ensures parts != [] ==> parts[0] <= r
  {
    if parts == [] then ""
    else if |parts| == 1 then parts[0]
    else parts[0] + sep + Join(parts[1..], sep)
  }

  /** Joining two non-empty lists is joining each and putting one `sep`
      between the results; with `Join([x], sep) == x` and `Join([], sep) == ""`
      this determines `Join` completely. */
  lemma {:induction false} JoinAppend(xs: seq<string>, ys: seq<string>, sep: string)
    requires xs != [] && ys != []
    ensures Join(xs + ys, sep) == Join(xs, sep) + sep + Join(ys, sep)
    decreases |xs|
  {
    var zs := xs + ys;
    assert |zs| > 1 && zs[0] == xs[0];
    if |xs| == 1 {
      assert zs[1..] == ys;
    } else {
      assert zs[1..] == xs[1..] + ys;
      JoinAppend(xs[1..], ys, sep);
    }
  }

  /** `unicode.IsSpace`: the Latin-1 spaces '\t', '\n', '\v', '\f', '\r', ' ',
      U+0085 and U+00A0, and the other code points with the White_Space
      property. */
  predicate IsUnicodeSpace(c: char)
  {
    || c == '\t' || c == '\n' || c == '\U{B}' || c == '\U{C}' || c == '\r' || c == ' '
    || c == '\U{85}' || c == '\U{A0}'
    || c == '\U{1680}' || ('\U{2000}' <= c <= '\U{200A}')
    || c == '\U{2028}' || c == '\U{2029}' || c == '\U{202F}' || c == '\U{205F}'
    || c == '\U{3000}'
  }

  /** `strings.TrimLeftFunc(s, isCut)`: the suffix of `s` that starts at its
      first character `isCut` rejects. */
  function TrimStart(s: string, isCut: char -> bool): (r: string)
    ensures |r| <= |s| && r == s[|s| - |r|..]
    ensures forall k :: 0 <= k < |s| - |r| ==> isCut(s[k])
    ensures r == [] || !isCut(r[0])
  {
    if s != [] && isCut(s[0]) then TrimStart(s[1..], isCut) else s
  }

  /** `strings.TrimRightFunc(s, isCut)`: the prefix of `s` that ends at its
      last character `isCut` rejects. */
  function TrimEnd(s: string, isCut: char -> bool): (r: string)
    ensures |r| <= |s| && r == s[..|r|]
    ensures forall k :: |r| <= k < |s| ==> isCut(s[k])
    ensures r == [] || !isCut(r[|r| - 1])
  {
    if s != [] && isCut(s[|s| - 1]) then TrimEnd(s[..|s| - 1], isCut) else s
  }

  /** `strings.TrimFunc(s, isCut)`: `s` without the characters `isCut`
      accepts at either end. */
  function Trim(s: string, isCut: char -> bool): string
  {
    TrimEnd(TrimStart(s, isCut), isCut)
  }

  /** What `Trim` keeps is the contiguous middle of `s`, the characters cut
      from around it all satisfy `isCut`, the result has no such character at
      either end, and trimming again changes nothing. */
  lemma TrimSpec(s: string, isCut: char -> bool) returns (a: nat)
    ensures var r := Trim(s, isCut);
      && a + |r| <= |s| && r == s[a..a + |r|]
      && (forall k :: 0 <= k < a ==> isCut(s[k]))
      && (forall k :: a + |r| <= k < |s| ==> isCut(s[k]))
    ensures var r := Trim(s, isCut); r == [] || (!isCut(r[0]) && !isCut(r[|r| - 1]))
    ensures Trim(Trim(s, isCut), isCut) == Trim(s, isCut)
  {
    var t := TrimStart(s, isCut);
    var r := TrimEnd(t, isCut);
    a := |s| - |t|;
    assert t == s[a..];
    assert r == t[..|r|];
    forall k | a + |r| <= k < |s|
      ensures isCut(s[k])
    {
      assert s[k] == t[k - a];
    }
    if r != [] {
      assert r[0] == t[0];
    }
  }

  /** `strings.TrimSpace`: `s` without its leading and trailing white space. */
  function TrimSpace(s: string): string
  {
    Trim(s, IsUnicodeSpace)
  }
}
