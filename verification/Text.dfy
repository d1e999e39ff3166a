/** The text operations of the configuration parser, as values: decimal digits, the
    digit counting of lcfg_string_cat_uint, and the dotted path that is pushed to and
    truncated. LString.dfy proves the byte buffer against these functions. */
module Text {

  // ---------- decimal digits ----------

  function DigitChar(d: nat): char
    requires d < 10
  {
    ['0', '1', '2', '3', '4', '5', '6', '7', '8', '9'][d]
  }

  function Digits(i: nat): (s: string)
    ensures |s| >= 1 && '.' !in s
  {
    if i < 10 then [DigitChar(i)] else Digits(i / 10) + [DigitChar(i % 10)]
  }

  lemma DigitsLast(i: nat)
    ensures |Digits(i)| == 1 <==> i / 10 == 0
    ensures Digits(i)[|Digits(i)| - 1] == DigitChar(i % 10)
    ensures i / 10 != 0 ==> Digits(i / 10) == Digits(i)[..|Digits(i)| - 1]
  {
  }

  /** The number that decimal text stands for, read off the characters themselves. */
  function Number(s: string): nat {
    if s == [] then 0
    else
      var c := s[|s| - 1];
      10 * Number(s[..|s| - 1]) + if '0' <= c <= '9' then (c - '0') as nat else 0
  }

  /** Decimal text of i: digits only, no leading zero, and i is what it reads as. */
  ghost predicate DecimalOf(s: string, i: nat) {
    && s != [] && (forall k :: 0 <= k < |s| ==> '0' <= s[k] <= '9')
    && (s[0] == '0' ==> |s| == 1) && Number(s) == i
  }

  /** The digits of i read back as i. */
  lemma {:induction false} DigitsDecimal(i: nat)
    ensures DecimalOf(Digits(i), i)
  {
    var d := Digits(i);
    if i < 10 {
      assert d[..0] == [] && d[0] == DigitChar(i);
    } else {
      DigitsDecimal(i / 10);
      assert d[..|d| - 1] == Digits(i / 10) && d[|d| - 1] == DigitChar(i % 10);
    }
  }

  /** Decimal text is unique: two texts of one number are the same. */
  lemma {:induction false} DecimalUnique(s: string, t: string, i: nat)
    requires DecimalOf(s, i) && DecimalOf(t, i)
    ensures s == t
    decreases |s|
  {
    var a, b := s[..|s| - 1], t[..|t| - 1];
    assert s == a + [s[|s| - 1]] && t == b + [t[|t| - 1]];
    assert Number(a) == i / 10 && Number(b) == i / 10;
    NumberZero(s);
    NumberZero(t);
    if i >= 10 {
      assert a != [] && b != [];
      DecimalUnique(a, b, i / 10);
    }
  }

  lemma {:induction false} NumberZero(s: string)
    requires DecimalOf(s, Number(s))
    ensures Number(s) < 10 <==> |s| == 1
  {
    var a := s[..|s| - 1];
    if |s| > 1 {
      assert a[0] == s[0];
      if |a| == 1 { assert a[..0] == []; } else { NumberZero(a); }
    }
  }

  /** The number of bytes the source reserves: it divides while the value is above ten. */
  function CountAsWritten(i: nat): nat {
    if i > 10 then 1 + CountAsWritten(i / 10) else 1
  }

  /** Some i / 10^k is exactly ten: 10, 100..109, 1000..1099, ... */
  predicate LeadingTen(i: nat) {
    i == 10 || (i > 10 && LeadingTen(i / 10))
  }

  /** The count is the number of digits, except that it is one short on a leading ten. */
  lemma {:induction false} CountIsDigits(i: nat)
    ensures CountAsWritten(i) == |Digits(i)| - (if LeadingTen(i) then 1 else 0)
  {
    if i > 10 {
      CountIsDigits(i / 10);
    } else if i == 10 {
      assert Digits(1) == [DigitChar(1)];
    }
  }

  /** What appending i leaves behind: one digit too few is reserved on a leading ten, so the
      digits start one byte early, over the last byte of the text. */
  function CatUint(s: string, i: nat): string {
    if !LeadingTen(i) then s + Digits(i)
    else if s == [] then Digits(i)[1..]
    else s[..|s| - 1] + Digits(i)
  }

  /** Appending i adds exactly its digits and keeps the bytes before, if and only if no
      i / 10^k is ten. */
  lemma CatUintExact(s: string, i: nat)
    ensures CatUint(s, i) == s + Digits(i) <==> !LeadingTen(i)
    ensures (exists t :: DecimalOf(t, i) && CatUint(s, i) == s + t) <==> !LeadingTen(i)
  {
    DigitsDecimal(i);
    forall t | DecimalOf(t, i) ensures t == Digits(i) {
      DecimalUnique(t, Digits(i), i);
    }
    if LeadingTen(i) {
      assert |CatUint(s, i)| == |s| + |Digits(i)| - 1;
    }
  }

  /** r is s with decimal text of i behind it, or, on a leading ten, with that text from its last
      byte on. */
  ghost predicate Appended(s: string, i: nat, r: string) {
    if LeadingTen(i) && s != [] then exists t :: DecimalOf(t, i) && r == s[..|s| - 1] + t
    else LeadingTen(i) || exists t :: DecimalOf(t, i) && r == s + t
  }

  lemma CatUintAppends(s: string, i: nat)
    ensures Appended(s, i, CatUint(s, i))
  {
    DigitsDecimal(i);
  }

  // ---------- the dotted path ----------

  /** The index of the last occurrence of c, or -1. */
  function RFind(s: string, c: char): (r: int)
    ensures -1 <= r < |s|
    ensures r >= 0 ==> s[r] == c
    ensures forall k :: r < k < |s| ==> s[k] != c
  {
    if s == [] then -1
    else if s[|s| - 1] == c then |s| - 1
    else RFind(s[..|s| - 1], c)
  }

  function WithDot(path: string): string {
    if path == [] then [] else path + "."
  }

  function PushStr(path: string, key: string): string {
    WithDot(path) + key
  }

  function PushInt(path: string, i: nat): string {
    CatUint(WithDot(path), i)
  }

  function Pop(path: string): (r: string)
    ensures r <= path
    ensures path != [] ==> |r| < |path|
  {
    var d := RFind(path, '.');
    if d == -1 then [] else path[..d]
  }

  /** The components joined by dots: what the path is meant to be. */
  function Join(comps: seq<string>): string {
    if comps == [] then [] else PushStr(Join(comps[..|comps| - 1]), comps[|comps| - 1])
  }

  predicate Component(s: string) {
    s != [] && '.' !in s
  }

  lemma RFindIs(s: string, c: char, r: int)
    requires -1 <= r < |s|
    requires r >= 0 ==> s[r] == c
    requires forall k :: r < k < |s| ==> s[k] != c
    ensures RFind(s, c) == r
  {
  }

  /** A pop undoes a push of a component. */
  lemma PopPush(path: string, key: string)
    requires '.' !in key
    ensures Pop(PushStr(path, key)) == path
  {
    var s := PushStr(path, key);
    if path == [] {
      RFindIs(s, '.', -1);
    } else {
      RFindIs(s, '.', |path|);
      assert s[..|path|] == path;
    }
  }

  /** On a shorter text the last dot comes no later, so popping keeps the prefix order. */
  lemma PopMonotone(q: string, p: string)
    requires q <= p
    ensures Pop(q) <= Pop(p)
  {
    var dq, dp := RFind(q, '.'), RFind(p, '.');
    assert dq >= 0 ==> p[dq] == '.';
  }

  /** Without a leading ten a pop undoes an index push; with one it removes a component too
      many. */
  lemma PopPushInt(path: string, i: nat)
    ensures !LeadingTen(i) ==> PushInt(path, i) == PushStr(path, Digits(i))
    ensures !LeadingTen(i) ==> Pop(PushInt(path, i)) == path
    ensures LeadingTen(i) ==> Pop(PushInt(path, i)) == Pop(path)
    ensures Pop(PushInt(path, i)) <= path
  {
    if !LeadingTen(i) {
      PopPush(path, Digits(i));
    } else {
      var s := PushInt(path, i);
      if path == [] {
        RFindIs(s, '.', -1);
      } else {
        assert WithDot(path)[..|path|] == path;
        assert s == path + Digits(i);
        var d := RFind(path, '.');
        RFindIs(s, '.', d);
      }
    }
  }

  /** The length of an index push: one byte short on a leading ten. */
  lemma PushIntLength(path: string, i: nat)
    ensures |PushInt(path, i)| == |WithDot(path)| + |Digits(i)| - (if LeadingTen(i) then 1 else 0)
  {
  }

  lemma JoinSnoc(comps: seq<string>, key: string)
    ensures Join(comps + [key]) == PushStr(Join(comps), key)
  {
    assert (comps + [key])[..|comps|] == comps;
  }

  lemma JoinNonEmpty(comps: seq<string>)
    requires comps != [] && forall c :: c in comps ==> Component(c)
    ensures Join(comps) != []
  {
    assert comps[|comps| - 1] in comps;
  }
}
