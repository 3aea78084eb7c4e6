/** The text operations the updater's parsers share: Python's `strip`, `lower`, decimal digits, and
    the character searches behind `split`, `rfind` and `partition`. */
module Strings {

  datatype Option<+T> = None | Some(value: T)

  /** Python's `str.isspace` for one character. */
  predicate IsSpace(c: char) {
    || '\U{0009}' <= c <= '\U{000D}' || '\U{001C}' <= c <= '\U{0020}'
    || c == '\U{0085}' || c == '\U{00A0}' || c == '\U{1680}' || '\U{2000}' <= c <= '\U{200A}'
    || c == '\U{2028}' || c == '\U{2029}' || c == '\U{202F}' || c == '\U{205F}' || c == '\U{3000}'
  }

  predicate IsDigit(c: char) {
    '0' <= c <= '9'
  }

  predicate IsAlnum(c: char) {
    IsDigit(c) || 'a' <= c <= 'z' || 'A' <= c <= 'Z'
  }

  function TrimLeft(s: string): (r: string)
    ensures r == [] || !IsSpace(r[0])
    ensures |r| <= |s| && r == s[|s| - |r|..]
  {
    if s != [] && IsSpace(s[0]) then TrimLeft(s[1..]) else s
  }

  function TrimRight(s: string): (r: string)
    ensures r == [] || !IsSpace(r[|r| - 1])
    ensures r <= s
  {
    if s != [] && IsSpace(s[|s| - 1]) then TrimRight(s[..|s| - 1]) else s
  }

  /** No whitespace at either end. */
  predicate Trimmed(s: string) {
    s == [] || (!IsSpace(s[0]) && !IsSpace(s[|s| - 1]))
  }

  function Strip(s: string): (r: string)
    ensures Trimmed(r)
    ensures Trimmed(s) ==> r == s
  {
    var l := TrimLeft(s);
    var r := TrimRight(l);
    assert r != [] ==> r[0] == l[0];
    r
  }

  lemma InSplit(front: string, back: string, c: char)
    ensures c in front + back <==> c in front || c in back
  {
  }

  lemma TrimLeftStep(s: string)
    ensures TrimLeft(s) == if s != [] && IsSpace(s[0]) then TrimLeft(s[1..]) else s
  {
    hide IsSpace;
  }

  lemma {:induction false} TrimLeftKeeps(s: string, c: char)
    requires !IsSpace(c)
    ensures c in TrimLeft(s) <==> c in s
  {
    hide IsSpace, TrimLeft;
    TrimLeftStep(s);
    if s != [] && IsSpace(s[0]) {
      var rest := s[1..];
      TrimLeftKeeps(rest, c);
      assert s == [s[0]] + rest;
      InSplit([s[0]], rest, c);
    }
  }

  lemma {:induction false} TrimRightKeeps(s: string, c: char)
    requires !IsSpace(c)
    ensures c in TrimRight(s) <==> c in s
  {
    hide IsSpace;
    if s != [] && IsSpace(s[|s| - 1]) {
      var rest := s[..|s| - 1];
      TrimRightKeeps(rest, c);
      assert s == rest + [s[|s| - 1]];
      InSplit(rest, [s[|s| - 1]], c);
    }
  }

  /** Stripping loses only whitespace. */
  lemma StripKeeps(s: string, c: char)
    requires !IsSpace(c)
    ensures c in Strip(s) <==> c in s
  {
    TrimLeftKeeps(s, c);
    TrimRightKeeps(TrimLeft(s), c);
  }

  function LowerChar(c: char): char {
    if 'A' <= c <= 'Z' then ((c as int) + 32) as char else c
  }

  /** `str.lower` on ASCII letters; every word compared with it is ASCII. */
  function Lower(s: string): (r: string)
    ensures |r| == |s| && forall i :: 0 <= i < |s| ==> r[i] == LowerChar(s[i])
  {
    seq(|s|, i requires 0 <= i < |s| => LowerChar(s[i]))
  }

  /** The first position of `c` at or after `from`, or the length of `s` when there is none. */
  function IndexFrom(s: string, c: char, from: nat): (i: nat)
    requires from <= |s|
    ensures from <= i <= |s|
    ensures forall j :: from <= j < i ==> s[j] != c
    ensures i < |s| ==> s[i] == c
    decreases |s| - from
  {
    if from == |s| || s[from] == c then from else IndexFrom(s, c, from + 1)
  }

  /** The last position of `c`, or -1: Python's `rfind`. */
  function LastIndex(s: string, c: char): (i: int)
    ensures -1 <= i < |s|
    ensures i >= 0 ==> s[i] == c
    ensures forall j :: i < j < |s| ==> s[j] != c
  {
    if s == [] then -1
    else if s[|s| - 1] == c then |s| - 1
    else LastIndex(s[..|s| - 1], c)
  }

  /** The end of the run of digits that starts at `from`. */
  function DigitsEnd(s: string, from: nat): (e: nat)
    requires from <= |s|
    ensures from <= e <= |s|
    ensures forall j :: from <= j < e ==> IsDigit(s[j])
    ensures e < |s| ==> !IsDigit(s[e])
    decreases |s| - from
  {
    if from < |s| && IsDigit(s[from]) then DigitsEnd(s, from + 1) else from
  }

  predicate AllDigits(s: string) {
    forall i :: 0 <= i < |s| ==> IsDigit(s[i])
  }

  function Decimal(s: string): nat
    requires AllDigits(s)
  {
    if s == [] then 0 else 10 * Decimal(s[..|s| - 1]) + (s[|s| - 1] as int - '0' as int)
  }

  function DigitChar(d: nat): (c: char)
    requires d < 10
    ensures IsDigit(c) && c as int - '0' as int == d
  {
    ('0' as int + d) as char
  }

  /** `str(n)` for a natural number. */
  function DecimalText(n: nat): (s: string)
    ensures s != [] && AllDigits(s)
    ensures n > 0 ==> s[0] != '0'
    ensures n == 0 ==> s == "0"
    ensures Decimal(s) == n
  {
    if n < 10 then
      var s := [DigitChar(n)];
      assert Decimal(s) == 10 * Decimal(s[..0]) + n;
      s
    else
      var t := DecimalText(n / 10);
      var s := t + [DigitChar(n % 10)];
      assert s[..|s| - 1] == t;
      s
  }

  // ---------------------------------------------------------------- what these operations come to

  /** Every character that Python's `str.isspace` knows. */
  const WHITESPACE := "\t\n\U{000B}\U{000C}\r\U{001C}\U{001D}\U{001E}\U{001F} \U{0085}\U{00A0}\U{1680}"
    + "\U{2000}\U{2001}\U{2002}\U{2003}\U{2004}\U{2005}\U{2006}\U{2007}\U{2008}\U{2009}\U{200A}"
    + "\U{2028}\U{2029}\U{202F}\U{205F}\U{3000}"

  lemma SpacesExactly(c: char)
    ensures IsSpace(c) <==> c in WHITESPACE
  {
  }

  ghost predicate AllSpace(s: string) {
    forall c :: c in s ==> IsSpace(c)
  }

  lemma {:induction false} LeftIsSpace(s: string)
    ensures AllSpace(s[..|s| - |TrimLeft(s)|])
  {
    hide IsSpace, TrimLeft;
    TrimLeftStep(s);
    if s != [] && IsSpace(s[0]) {
      var rest := s[1..];
      LeftIsSpace(rest);
      var cut := rest[..|rest| - |TrimLeft(rest)|];
      assert s[..|s| - |TrimLeft(s)|] == [s[0]] + cut;
    }
  }

  lemma {:induction false} RightIsSpace(s: string)
    ensures AllSpace(s[|TrimRight(s)|..])
  {
    if s != [] && IsSpace(s[|s| - 1]) {
      RightIsSpace(s[..|s| - 1]);
      assert s[|TrimRight(s)|..] == s[..|s| - 1][|TrimRight(s)|..] + [s[|s| - 1]];
    }
  }

  lemma {:induction false} SpaceOnTheLeft(front: string, s: string)
    requires AllSpace(front)
    ensures TrimLeft(front + s) == TrimLeft(s)
  {
    if front == [] {
      assert front + s == s;
    } else {
      assert (front + s)[0] == front[0] && (front + s)[1..] == front[1..] + s;
      assert forall c :: c in front[1..] ==> c in front;
      SpaceOnTheLeft(front[1..], s);
    }
  }

  lemma {:induction false} SpaceOnTheRight(s: string, back: string)
    requires AllSpace(back)
    ensures TrimRight(s + back) == TrimRight(s)
  {
    if back == [] {
      assert s + back == s;
    } else {
      var front := back[..|back| - 1];
      assert (s + back)[|s + back| - 1] == back[|back| - 1] && (s + back)[..|s + back| - 1] == s + front;
      assert forall c :: c in front ==> c in back;
      SpaceOnTheRight(s, front);
    }
  }

  lemma StripCuts(s: string) returns (front: string, back: string)
    ensures s == front + Strip(s) + back && AllSpace(front) && AllSpace(back)
  {
    hide IsSpace, TrimLeft, TrimRight;
    var l := TrimLeft(s);
    front, back := s[..|s| - |l|], l[|TrimRight(l)|..];
    LeftIsSpace(s);
    RightIsSpace(l);
  }

  lemma CutIsStripped(front: string, r: string, back: string)
    requires Trimmed(r) && AllSpace(front) && AllSpace(back)
    ensures Strip(front + r + back) == r
  {
    hide IsSpace, AllSpace, TrimLeft, TrimRight;
    assert front + r + back == front + (r + back);
    SpaceOnTheLeft(front, r + back);
    SpaceOnTheRight(r, back);
    TrimmedStays(r);
    if r == [] {
      assert r + back == back && back + [] == back;
      SpaceOnTheLeft(back, []);
    } else {
      StartsInPlace(r + back);
    }
  }

  lemma TrimmedStays(r: string)
    requires Trimmed(r)
    ensures TrimLeft(r) == r && TrimRight(r) == r
    ensures r != [] ==> !IsSpace(r[0])
  {
  }

  lemma StartsInPlace(s: string)
    requires s != [] && !IsSpace(s[0])
    ensures TrimLeft(s) == s
  {
  }

  /** Stripping cuts whitespace off both ends until something else stands there, and nothing more. */
  lemma StripExactly(s: string, r: string)
    ensures Strip(s) == r <==>
            Trimmed(r) && exists front, back :: AllSpace(front) && AllSpace(back) && s == front + r + back
  {
    hide IsSpace, AllSpace, Strip, Trimmed;
    StripIsTrimmed(s);
    var front, back := StripCuts(s);
    if Trimmed(r) && exists front, back :: AllSpace(front) && AllSpace(back) && s == front + r + back {
      var before, after :| AllSpace(before) && AllSpace(after) && s == before + r + after;
      CutIsStripped(before, r, after);
    }
  }

  lemma StripIsTrimmed(s: string)
    ensures Trimmed(Strip(s))
  {
  }
}
