/** The fields of an RPC parameter, taken one by one between separators. */
module Fields {
  /** Beyond: the search has left the string. */
  datatype Field = Text(text: string) | Missing | Beyond

  predicate Blank(c: char) {
    c == ' ' || c == '\t' || c == '\n' || c == '\r' || c == '\U{0C}'
  }

  /** g_strchug and g_strchomp. */
  function Strip(s: string): string {
    if s != "" && Blank(s[0]) then Strip(s[1..])
    else if s != "" && Blank(s[|s| - 1]) then Strip(s[..|s| - 1])
    else s
  }

  predicate AllBlank(s: string) {
    forall c :: c in s ==> Blank(c)
  }

  /** Trimming takes blanks off both ends, as many as there are, and nothing else. */
  lemma {:induction false} StripExact(s: string) returns (a: string, b: string)
    ensures AllBlank(a) && AllBlank(b) && s == a + Strip(s) + b
    ensures Strip(s) != "" ==> !Blank(Strip(s)[0]) && !Blank(Strip(s)[|Strip(s)| - 1])
    decreases |s|
  {
    a, b := "", "";
    if s != "" && Blank(s[0]) {
      a, b := StripExact(s[1..]);
      a := [s[0]] + a;
      assert s == [s[0]] + s[1..];
    } else if s != "" && Blank(s[|s| - 1]) {
      a, b := StripExact(s[..|s| - 1]);
      b := b + [s[|s| - 1]];
      assert s == s[..|s| - 1] + [s[|s| - 1]];
    }
  }

  const WHITE := [' ', '\t', '\n', '\r', '\U{0C}']

  /** r is s without the white space at its ends: what is taken off is white, and neither end of
      what is left is. */
  ghost predicate Trimmed(s: string, r: string) {
    && (exists a, b :: White(a) && White(b) && s == a + r + b)
    && (r != "" ==> r[0] !in WHITE && r[|r| - 1] !in WHITE)
  }

  predicate White(s: string) {
    forall i :: 0 <= i < |s| ==> s[i] in WHITE
  }

  lemma StripTrims(s: string)
    ensures Trimmed(s, Strip(s))
  {
    var a, b := StripExact(s);
    forall c ensures Blank(c) <==> c in WHITE {
    }
    assert White(a) && White(b);
  }

  /** There is one such text. */
  lemma TrimmedIs(s: string, r: string)
    requires Trimmed(s, r)
    ensures r == Strip(s)
  {
    var a, b :| White(a) && White(b) && s == a + r + b;
    StripWhite(a, r, b);
  }

  lemma {:induction false} StripWhite(a: string, r: string, b: string)
    requires White(a) && White(b) && (r != "" ==> r[0] !in WHITE && r[|r| - 1] !in WHITE)
    ensures Strip(a + r + b) == r
    decreases |a| + |b|
  {
    var s := a + r + b;
    if a != "" {
      assert s[0] == a[0] && s[1..] == a[1..] + r + b;
      StripWhite(a[1..], r, b);
    } else if b != "" {
      assert s[|s| - 1] == b[|b| - 1] && s[..|s| - 1] == a + r + b[..|b| - 1];
      if r == "" {
        assert s == b && s[0] == b[0] && s[1..] == a + r + b[1..];
        StripWhite(a, r, b[1..]);
      } else {
        assert s[0] == r[0];
        StripWhite(a, r, b[..|b| - 1]);
      }
    } else {
      assert s == r;
    }
  }

  /** The first separator, or the end. */
  function Sep(s: string): (k: nat)
    ensures k <= |s|
    ensures k < |s| ==> s[k] == '|'
    ensures forall i :: 0 <= i < k ==> s[i] != '|'
  {
    if s == "" || s[0] == '|' then 0 else 1 + Sep(s[1..])
  }

  /** The fields of a text, independently: what stands between separators. */
  function Split(s: string): (fs: seq<string>)
    ensures |fs| > 0
    decreases |s|
  {
    var k := Sep(s);
    if k == |s| then [s] else [s[..k]] + Split(s[k + 1..])
  }

  function Join(fs: seq<string>): string {
    if fs == [] then "" else if |fs| == 1 then fs[0] else fs[0] + "|" + Join(fs[1..])
  }

  lemma SepIs(s: string, k: nat)
    requires k <= |s| && (k < |s| ==> s[k] == '|') && forall i :: 0 <= i < k ==> s[i] != '|'
    ensures Sep(s) == k
  {
  }

  lemma SplitFirst(f: string, tail: string)
    requires '|' !in f
    ensures Split(f + "|" + tail) == [f] + Split(tail)
  {
    var s := f + "|" + tail;
    SepIs(s, |f|);
    hide Sep;
    assert s[..|f|] == f && s[|f| + 1..] == tail;
  }

  lemma SplitLast(f: string)
    requires '|' !in f
    ensures Split(f) == [f]
  {
    SepIs(f, |f|);
  }

  /** Joining and splitting undo each other. */
  lemma {:induction false} SplitJoin(fs: seq<string>)
    requires fs != [] && forall f :: f in fs ==> '|' !in f
    ensures Split(Join(fs)) == fs
    decreases |fs|
  {
    hide Split;
    var f, rest := fs[0], fs[1..];
    assert f in fs && fs == [f] + rest;
    if rest == [] {
      SplitLast(f);
    } else {
      SplitFirst(f, Join(rest));
      SplitJoin(rest);
    }
  }

  lemma {:induction false} JoinSplit(s: string)
    ensures Join(Split(s)) == s
    decreases |s|
  {
    hide Sep, Join;
    var k := Sep(s);
    if k < |s| {
      JoinSplit(s[k + 1..]);
      JoinCons(s[..k], Split(s[k + 1..]));
      assert s == s[..k] + "|" + s[k + 1..];
    } else {
      JoinOne(s);
    }
  }

  lemma JoinOne(f: string)
    ensures Join([f]) == f
  {
  }

  lemma JoinCons(f: string, tail: seq<string>)
    requires tail != []
    ensures Join([f] + tail) == f + "|" + Join(tail)
  {
    assert ([f] + tail)[1..] == tail;
  }

  /** Field idx of a list, trimmed. An empty last field counts as missing, and an index past a last
      field that is not empty leaves the string. */
  function FieldIn(fs: seq<string>, idx: nat): Field
    requires fs != []
  {
    if fs[|fs| - 1] == "" && (idx == 0 || idx >= |fs|) then Missing
    else if idx == 0 || idx > |fs| then Beyond
    else Text(Strip(fs[idx - 1]))
  }

  /** rh_string_get_sep. */
  method GetSep(s: string, idx: nat) returns (r: Field)
    ensures r == FieldIn(Split(s), idx)
  {
    hide Split, FieldIn, Strip, Sep;
    var end, current := 0, 0;
    ghost var front: seq<string> := [];
    assert s[0..] == s && front + Split(s) == Split(s);
    while true
      invariant 0 <= end <= |s| && |front| == current && (idx == 0 || current < idx)
      invariant Split(s) == front + Split(s[end..])
      decreases |s| - end
    {
      var start := end;
      if start == |s| {
        EmptyRest(s, front, idx);
        return Missing;
      }
      end := SepFrom(s, start);
      current := current + 1;
      SplitStep(s, start, end);
      if current == idx {
        FoundField(front, s[start..end], if end == |s| then [] else Split(s[end + 1..]), end == |s|);
        assert end == |s| ==> [s[start..end]] + [] == [s[start..end]];
        return Text(Strip(s[start..end]));
      }
      if end == |s| {
        PastLast(front, s[start..end], idx);
        return Beyond;
      }
      assert front + ([s[start..end]] + Split(s[end + 1..])) == (front + [s[start..end]]) + Split(s[end + 1..]);
      front := front + [s[start..end]];
      end := end + 1;
    }
  }

  lemma EmptyRest(s: string, front: seq<string>, idx: nat)
    requires Split(s) == front + Split(s[|s|..]) && (idx == 0 || idx > |front|)
    ensures FieldIn(Split(s), idx) == Missing
  {
    assert s[|s|..] == "";
  }

  lemma FoundField(front: seq<string>, piece: string, rest: seq<string>, last: bool)
    requires if last then rest == [] && piece != "" else rest != []
    ensures FieldIn(front + ([piece] + rest), |front| + 1) == Text(Strip(piece))
  {
    hide Strip;
  }

  lemma PastLast(front: seq<string>, piece: string, idx: nat)
    requires piece != "" && (idx == 0 || idx > |front| + 1)
    ensures FieldIn(front + [piece], idx) == Beyond
  {
  }

  method SepFrom(s: string, start: nat) returns (k: nat)
    requires start <= |s|
    ensures k == start + Sep(s[start..])
  {
    k := start;
    while k < |s| && s[k] != '|'
      invariant start <= k <= |s| && forall i :: start <= i < k ==> s[i] != '|'
    {
      k := k + 1;
    }
    SepIs(s[start..], k - start);
  }

  lemma SplitStep(s: string, start: nat, k: nat)
    requires start < |s| && k == start + Sep(s[start..])
    ensures start <= k <= |s|
    ensures Split(s[start..]) == if k == |s| then [s[start..k]] else [s[start..k]] + Split(s[k + 1..])
  {
    hide Sep;
    var t := s[start..];
    assert t[..k - start] == s[start..k];
    if k < |s| {
      assert t[k - start + 1..] == s[k + 1..];
    } else {
      assert t == s[start..k];
    }
  }

  /** All fields of a parameter come back, trimmed, exactly when the last one is not empty. */
  lemma FieldsReturned(fs: seq<string>)
    requires fs != [] && forall f :: f in fs ==> '|' !in f
    ensures (forall i :: 0 <= i < |fs| ==> FieldIn(Split(Join(fs)), i + 1) == Text(Strip(fs[i])))
            <==> fs[|fs| - 1] != ""
  {
    hide Split, Join, Strip;
    SplitJoin(fs);
    if fs[|fs| - 1] == "" {
      assert FieldIn(fs, (|fs| - 1) + 1) == Missing;
    }
  }

  /** What comes back for a field is the field without the white space at its ends. */
  lemma FieldTrimmed(fs: seq<string>, i: nat)
    requires i < |fs| && fs[|fs| - 1] != "" && forall f :: f in fs ==> '|' !in f
    ensures FieldIn(Split(Join(fs)), i + 1).Text? && Trimmed(fs[i], FieldIn(Split(Join(fs)), i + 1).text)
  {
    hide Split, Join, Strip, Trimmed;
    FieldsReturned(fs);
    StripTrims(fs[i]);
  }

  /** The last field is empty behind a separator at the end. */
  lemma {:induction false} LastEmpty(s: string)
    ensures Split(s)[|Split(s)| - 1] == "" <==> s == "" || s[|s| - 1] == '|'
    decreases |s|
  {
    var k := Sep(s);
    if k < |s| {
      var tail := s[k + 1..];
      LastEmpty(tail);
      hide Sep;
      if tail != "" { assert tail[|tail| - 1] == s[|s| - 1]; } else { assert k == |s| - 1; }
    }
  }

  /** There is one field more than separators. */
  lemma {:induction false} SplitCount(s: string)
    ensures |Split(s)| == multiset(s)['|'] + 1
    decreases |s|
  {
    var k := Sep(s);
    if k < |s| {
      SplitCount(s[k + 1..]);
      NoSeps(s[..k]);
      assert s == s[..k] + (['|'] + s[k + 1..]);
      assert multiset(s) == multiset(s[..k]) + (multiset{'|'} + multiset(s[k + 1..]));
    } else {
      NoSeps(s);
    }
  }

  lemma NoSeps(s: string)
    requires forall i :: 0 <= i < |s| ==> s[i] != '|'
    ensures multiset(s)['|'] == 0
  {
    assert '|' !in s;
  }

  /** The search leaves the string exactly when it asks for more fields than there are and the last
      one is not empty. */
  lemma BeyondExact(s: string, idx: nat)
    ensures FieldIn(Split(s), idx) == Beyond <==>
            (idx == 0 || idx > multiset(s)['|'] + 1) && s != "" && s[|s| - 1] != '|'
  {
    hide Split, Strip;
    LastEmpty(s);
    SplitCount(s);
  }
}
