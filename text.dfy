/**
 * The string operations the pipeline relies on: `str.split` on one separator,
 * `str.endswith`, decimal rendering of an integer (`f"{year}"`), `int()` of a
 * string of digits, and `os.path.join` of two POSIX path parts.
 */
module Text {
  import opened Nullable

  /** Position of the first `c` in `s`. */
  function IndexOf(s: string, c: char): (i: nat)
    requires c in s
    ensures i < |s| && s[i] == c && c !in s[..i]
  {
    if s[0] == c then 0
    else
      assert s == [s[0]] + s[1..];
      var j := IndexOf(s[1..], c);
      assert s[..j + 1] == [s[0]] + s[1..][..j];
      j + 1
  }

  /** `s.split(c)`: the pieces between separators; never empty, and no piece holds a separator. */
  function Split(s: string, c: char): (parts: seq<string>)
    ensures |parts| >= 1
    ensures forall k :: 0 <= k < |parts| ==> c !in parts[k]
    decreases |s|
  {
    if c in s then
      var i := IndexOf(s, c);
      [s[..i]] + Split(s[i + 1..], c)
    else [s]
  }

  /** `c.join(parts)`. */
  function Join(parts: seq<string>, c: char): string
    requires |parts| >= 1
  {
    if |parts| == 1 then parts[0] else parts[0] + [c] + Join(parts[1..], c)
  }

  /** Splitting and joining again gives back the string. */
  lemma {:induction false} JoinSplit(s: string, c: char)
    ensures Join(Split(s, c), c) == s
    decreases |s|
  {
    if c in s {
      var i := IndexOf(s, c);
      var rest := Split(s[i + 1..], c);
      JoinSplit(s[i + 1..], c);
      assert Split(s, c) == [s[..i]] + rest;
      assert ([s[..i]] + rest)[1..] == rest;
      assert Join([s[..i]] + rest, c) == s[..i] + [c] + Join(rest, c);
      assert s == s[..i] + [c] + s[i + 1..];
    }
  }

  /** In `p + [c] + tail` with no `c` in `p`, the first `c` is the one right after `p`. */
  lemma IndexOfAfterPiece(p: string, c: char, tail: string)
    requires c !in p
    ensures IndexOf(p + [c] + tail, c) == |p|
    ensures (p + [c] + tail)[..|p|] == p && (p + [c] + tail)[|p| + 1..] == tail
  {
    var s := p + [c] + tail;
    assert s[|p|] == c;
    assert s[..|p|] == p;
    assert s[|p| + 1..] == tail;
    assert forall j :: |p| < j <= |s| ==> s[|p|] in s[..j];
  }

  /** Joining pieces that hold no separator and splitting again gives back the pieces. */
  lemma {:induction false} SplitJoin(parts: seq<string>, c: char)
    requires |parts| >= 1
    requires forall k :: 0 <= k < |parts| ==> c !in parts[k]
    ensures Split(Join(parts, c), c) == parts
  {
    if |parts| > 1 {
      var p, tail := parts[0], Join(parts[1..], c);
      SplitJoin(parts[1..], c);
      IndexOfAfterPiece(p, c, tail);
      assert Join(parts, c) == p + [c] + tail;
      assert Split(p + [c] + tail, c) == [p] + Split(tail, c);
      assert parts == [p] + parts[1..];
    }
  }

  /** The text before the first `c`, all of `s` when there is none: `s.split(c)[0]`. */
  lemma FirstPiece(s: string, c: char)
    ensures c !in s ==> Split(s, c)[0] == s
    ensures c in s ==> Split(s, c)[0] == s[..IndexOf(s, c)]
  {
  }

  predicate EndsWith(s: string, suffix: string)
  {
    |suffix| <= |s| && s[|s| - |suffix|..] == suffix
  }

  // ---------------------------------------------------------------- decimal numbers

  predicate IsDigit(ch: char)
  {
    '0' <= ch <= '9'
  }

  function DigitChar(d: nat): (ch: char)
    requires d < 10
    ensures IsDigit(ch)
  {
    ['0', '1', '2', '3', '4', '5', '6', '7', '8', '9'][d]
  }

  function DigitValue(ch: char): (d: nat)
    requires IsDigit(ch)
    ensures d < 10
  {
    (ch as int - '0' as int) as nat
  }

  lemma DigitRoundTrip(d: nat)
    requires d < 10
    ensures DigitValue(DigitChar(d)) == d
  {
  }

  /** The shortest decimal rendering of `n`: no leading zero, nothing but digits. */
  function ShowNat(n: nat): (s: string)
    ensures |s| >= 1
    ensures forall k :: 0 <= k < |s| ==> IsDigit(s[k])
    ensures |s| > 1 ==> s[0] != '0'
  {
    if n < 10 then [DigitChar(n)] else ShowNat(n / 10) + [DigitChar(n % 10)]
  }

  /** `f"{i}"` of an integer. */
  function ShowInt(i: int): (s: string)
    ensures |s| >= 1
  {
    if i < 0 then "-" + ShowNat(-i) else ShowNat(i)
  }

  /** The number a non-empty string of decimal digits denotes. */
  function DigitsValue(s: string): nat
    requires forall k :: 0 <= k < |s| ==> IsDigit(s[k])
  {
    if s == [] then 0 else DigitsValue(s[..|s| - 1]) * 10 + DigitValue(s[|s| - 1])
  }

  /** `int(s)` for an unsigned decimal: undefined (a ValueError) on anything but one or more digits. */
  function ParseNat(s: string): (r: Option<nat>)
    ensures r.Some? <==> s != [] && forall k :: 0 <= k < |s| ==> IsDigit(s[k])
  {
    if s != [] && forall k :: 0 <= k < |s| ==> IsDigit(s[k]) then Some(DigitsValue(s)) else None
  }

  /** Reading back a rendered number gives the number. */
  lemma {:induction false} ParseShow(n: nat)
    ensures ParseNat(ShowNat(n)) == Some(n)
  {
    if n >= 10 {
      ParseShow(n / 10);
      var s := ShowNat(n);
      assert s[..|s| - 1] == ShowNat(n / 10);
      DigitRoundTrip(n % 10);
    } else {
      DigitRoundTrip(n);
      var s := ShowNat(n);
      assert s[..0] == [];
      assert DigitsValue(s) == n;
    }
  }

  /** A rendered number holds no separator of the pipeline's strings. */
  lemma ShowNatHasNoSeparator(n: nat, c: char)
    requires !IsDigit(c)
    ensures c !in ShowNat(n)
  {
  }

  // ---------------------------------------------------------------- paths

  /** `os.path.join(a, b)` on POSIX: an absolute `b` replaces `a`; otherwise one '/' between them. */
  function PathJoin(a: string, b: string): (p: string)
    ensures |b| > 0 && b[0] == '/' ==> p == b
    ensures (|b| == 0 || b[0] != '/') && (a == [] || a[|a| - 1] == '/') ==> p == a + b
    ensures (|b| == 0 || b[0] != '/') && a != [] && a[|a| - 1] != '/' ==> p == a + "/" + b
  {
    if |b| > 0 && b[0] == '/' then b
    else if a == [] || a[|a| - 1] == '/' then a + b
    else a + "/" + b
  }

  /**
   * A joined path ends with its second part; for a relative second part it starts with the
   * first part and adds at most one character between the two, and that character is '/'.
   */
  lemma PathJoinShape(a: string, b: string)
    ensures EndsWith(PathJoin(a, b), b)
    ensures (b == [] || b[0] != '/') ==>
      |a| <= |PathJoin(a, b)| && PathJoin(a, b)[..|a|] == a &&
      |a| + |b| <= |PathJoin(a, b)| <= |a| + |b| + 1
    ensures (b == [] || b[0] != '/') && |PathJoin(a, b)| == |a| + |b| + 1 ==> PathJoin(a, b)[|a|] == '/'
  {
    var p := PathJoin(a, b);
    assert p[|p| - |b|..] == b;
    if b == [] || b[0] != '/' {
      assert p[..|a|] == a;
    }
  }
}
