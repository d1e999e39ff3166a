/** The text of XML-RPC calls and responses: both sides escape character data (section 2.4 of XML
    1.0), find their element by searching for its tag, and undo the escapes in loops. */
module XmlRpc {
  // ---------- escapes ----------

  function EncodeChar(c: char): string {
    if c == '&' then "&amp;" else if c == '<' then "&lt;" else if c == '>' then "&gt;" else [c]
  }

  function Encode(s: string): string {
    if s == "" then "" else EncodeChar(s[0]) + Encode(s[1..])
  }

  /** The client: amp, lt and gt; any other ampersand stands for itself. */
  function ClientDecode(t: string): string
    decreases |t|
  {
    if t == "" then ""
    else if t[0] != '&' then [t[0]] + ClientDecode(t[1..])
    else if "amp;" <= t[1..] then "&" + ClientDecode(t[5..])
    else if "lt;" <= t[1..] then "<" + ClientDecode(t[4..])
    else if "gt;" <= t[1..] then ">" + ClientDecode(t[4..])
    else "&" + ClientDecode(t[1..])
  }

  /** What the server puts out behind an ampersand, and how much text it takes. */
  function Behind(r: string): (b: (string, nat))
    ensures b.1 <= |r|
  {
    if "quot;" <= r then ("\"", 5) else if "lt;" <= r then ("<", 3) else if "gt;" <= r then (">", 3) else ("&", 0)
  }

  /** The server: amp; does not end the choice, so what follows it is looked at once more. */
  function ServerDecode(t: string): string
    decreases |t|
  {
    if t == "" then ""
    else if t[0] != '&' then [t[0]] + ServerDecode(t[1..])
    else if "amp;" <= t[1..] then
      var (out, n) := Behind(t[5..]);
      "&" + out + ServerDecode(t[5 + n..])
    else
      var (out, n) := Behind(t[1..]);
      out + ServerDecode(t[1 + n..])
  }

  /** Encoded text holds no tag. */
  lemma {:induction false} EncodedPlain(s: string)
    ensures '<' !in Encode(s) && '>' !in Encode(s)
  {
    if s != "" { EncodedPlain(s[1..]); }
  }

  /** The client decodes every encoded string to the string. */
  lemma {:induction false} ClientRoundTrip(s: string)
    ensures ClientDecode(Encode(s)) == s
  {
    if s != "" {
      var c, rest := s[0], Encode(s[1..]);
      ClientRoundTrip(s[1..]);
      assert s == [c] + s[1..];
      if c == '&' {
        ClientAmp(rest);
      } else if c == '<' {
        ClientLt(rest);
      } else if c == '>' {
        ClientGt(rest);
      } else {
        assert ([c] + rest)[1..] == rest;
      }
    }
  }

  /** What the client reads for each escape, and for an ampersand that begins none. */
  lemma ClientEntities(rest: string)
    ensures ClientDecode("&amp;" + rest) == "&" + ClientDecode(rest)
    ensures ClientDecode("&lt;" + rest) == "<" + ClientDecode(rest)
    ensures ClientDecode("&gt;" + rest) == ">" + ClientDecode(rest)
    ensures !("amp;" <= rest) && !("lt;" <= rest) && !("gt;" <= rest) ==>
              ClientDecode("&" + rest) == "&" + ClientDecode(rest)
  {
    hide ClientDecode;
    ClientAmp(rest);
    ClientLt(rest);
    ClientGt(rest);
    ClientOther(rest);
  }

  lemma ClientOther(rest: string)
    ensures !("amp;" <= rest) && !("lt;" <= rest) && !("gt;" <= rest) ==>
              ClientDecode("&" + rest) == "&" + ClientDecode(rest)
  {
    assert ("&" + rest)[1..] == rest;
  }

  lemma ClientAmp(rest: string)
    ensures ClientDecode("&amp;" + rest) == "&" + ClientDecode(rest)
  {
    var t := "&amp;" + rest;
    assert "amp;" <= t[1..] && t[5..] == rest;
  }

  lemma ClientLt(rest: string)
    ensures ClientDecode("&lt;" + rest) == "<" + ClientDecode(rest)
  {
    var t := "&lt;" + rest;
    assert t[1] == 'l' && "lt;" <= t[1..] && t[4..] == rest;
  }

  lemma ClientGt(rest: string)
    ensures ClientDecode("&gt;" + rest) == ">" + ClientDecode(rest)
  {
    var t := "&gt;" + rest;
    assert t[1] == 'g' && "gt;" <= t[1..] && t[4..] == rest;
  }

  // ---------- what the server makes of encoded text ----------

  /** A name of an entity starts the encoded text exactly when it starts the text. */
  lemma {:induction false} EncodePrefix(w: string, s: string)
    requires '&' !in w && '<' !in w && '>' !in w
    ensures w <= Encode(s) <==> w <= s
    ensures w <= s ==> Encode(s)[|w|..] == Encode(s[|w|..])
  {
    if w != "" && s != "" {
      EncodePrefix(w[1..], s[1..]);
      assert s == [s[0]] + s[1..] && Encode(s) == EncodeChar(s[0]) + Encode(s[1..]);
      if EncodeChar(s[0]) == [s[0]] {
        assert Encode(s)[1..] == Encode(s[1..]);
        if w <= s { assert Encode(s)[|w|..] == Encode(s[1..])[|w| - 1..]; }
        assert w <= s <==> w[0] == s[0] && w[1..] <= s[1..];
        assert w <= Encode(s) <==> w[0] == s[0] && w[1..] <= Encode(s[1..]);
      } else {
        assert w[0] in w && Encode(s)[0] == '&';
      }
    }
  }

  lemma BehindEncoded(s: string)
    ensures Behind(Encode(s)) == Behind(s)
    ensures Encode(s)[Behind(s).1..] == Encode(s[Behind(s).1..])
  {
    EncodePrefix("quot;", s);
    EncodePrefix("lt;", s);
    EncodePrefix("gt;", s);
  }

  /** Server decoding of encoded text, on the text itself. */
  function Garbled(s: string): string
    decreases |s|
  {
    if s == "" then ""
    else if s[0] != '&' then [s[0]] + Garbled(s[1..])
    else
      var (out, n) := Behind(s[1..]);
      "&" + out + Garbled(s[1 + n..])
  }

  lemma {:induction false} ServerDecodesEncoded(s: string)
    ensures ServerDecode(Encode(s)) == Garbled(s)
    decreases |s|
  {
    hide Behind;
    if s != "" {
      var c, tail := s[0], s[1..];
      var rest := Encode(tail);
      if c == '&' {
        var t := "&amp;" + rest;
        assert "amp;" <= t[1..] && t[5..] == rest;
        BehindEncoded(tail);
        var n := Behind(tail).1;
        assert t[5 + n..] == rest[n..];
        ServerDecodesEncoded(tail[n..]);
        assert s[1 + n..] == tail[n..];
      } else {
        ServerDecodesEncoded(tail);
        if c == '<' {
          LtDecoded(rest);
        } else if c == '>' {
          GtDecoded(rest);
        } else {
          assert ([c] + rest)[1..] == rest;
        }
      }
    }
  }

  lemma LtDecoded(rest: string)
    ensures ServerDecode("&lt;" + rest) == "<" + ServerDecode(rest)
  {
    var t := "&lt;" + rest;
    assert t[1] == 'l' && "lt;" <= t[1..] && t[4..] == rest;
    assert Behind(t[1..]) == ("<", 3);
  }

  lemma GtDecoded(rest: string)
    ensures ServerDecode("&gt;" + rest) == ">" + ServerDecode(rest)
  {
    var t := "&gt;" + rest;
    assert t[1] == 'g' && "gt;" <= t[1..] && t[4..] == rest;
    assert Behind(t[1..]) == (">", 3);
  }

  /** What the server reads for each escape, and for an ampersand that begins none: the escape of
      the ampersand is read as one ampersand, and then as if another stood in front of the rest. */
  lemma ServerEntities(rest: string)
    ensures ServerDecode("&quot;" + rest) == "\"" + ServerDecode(rest)
    ensures ServerDecode("&lt;" + rest) == "<" + ServerDecode(rest)
    ensures ServerDecode("&gt;" + rest) == ">" + ServerDecode(rest)
    ensures !("amp;" <= rest) ==> ServerDecode("&amp;" + rest) == "&" + ServerDecode("&" + rest)
    ensures !("amp;" <= rest) && !("quot;" <= rest) && !("lt;" <= rest) && !("gt;" <= rest) ==>
              ServerDecode("&" + rest) == "&" + ServerDecode(rest)
  {
    LtDecoded(rest);
    GtDecoded(rest);
    QuotDecoded(rest);
    AmpDecoded(rest);
  }

  lemma QuotDecoded(rest: string)
    ensures ServerDecode("&quot;" + rest) == "\"" + ServerDecode(rest)
  {
    var t := "&quot;" + rest;
    assert t[1] == 'q' && "quot;" <= t[1..] && t[6..] == rest;
    assert Behind(t[1..]) == ("\"", 5);
  }

  lemma AmpDecoded(rest: string)
    ensures !("amp;" <= rest) ==> ServerDecode("&amp;" + rest) == "&" + ServerDecode("&" + rest)
    ensures !("amp;" <= rest) && !("quot;" <= rest) && !("lt;" <= rest) && !("gt;" <= rest) ==>
              ServerDecode("&" + rest) == "&" + ServerDecode(rest)
  {
    var t, u := "&amp;" + rest, "&" + rest;
    assert "amp;" <= t[1..] && t[5..] == rest && u[1..] == rest;
    var n := Behind(rest).1;
    assert t[5 + n..] == rest[n..] && u[1 + n..] == rest[n..] && rest[0..] == rest;
    if !("quot;" <= rest) && !("lt;" <= rest) && !("gt;" <= rest) { assert Behind(rest) == ("&", 0); }
  }

  function Amps(k: nat): string {
    if k == 0 then "" else "&" + Amps(k - 1)
  }

  lemma {:induction false} AmpsMore(k: nat, s: string)
    ensures Amps(k) + ("&" + s) == Amps(k + 1) + s
  {
    if k == 0 {
      assert Amps(0) + ("&" + s) == "&" + s && Amps(1) == "&" + Amps(0);
    } else {
      AmpsMore(k - 1, s);
      assert Amps(k) + ("&" + s) == "&" + (Amps(k - 1) + ("&" + s));
      assert Amps(k + 1) + s == "&" + (Amps(k) + s);
    }
  }

  lemma GarbledAmp(w: string)
    ensures Garbled("&" + w) == "&" + (Behind(w).0 + Garbled(w[Behind(w).1..]))
  {
    hide Behind;
    var s := "&" + w;
    assert s[1..] == w && s[1 + Behind(w).1..] == w[Behind(w).1..];
  }

  /** An entity that is taken is not what is put out. */
  lemma BehindDiffers(w: string)
    ensures Behind(w).0 != ""
    ensures Behind(w).1 == 0 ==> Behind(w).0 == "&"
    ensures Behind(w).1 > 0 ==> w != "" && w[0] != Behind(w).0[0] && w[0] != '&'
  {
  }

  /** A text is never its own garbling behind more ampersands. */
  lemma {:induction false} NeverShifted(s: string, k: nat)
    requires k > 0
    ensures s != Amps(k) + Garbled(s)
    decreases |s|
  {
    hide Behind, Garbled;
    if s == Amps(k) + Garbled(s) {
      assert Amps(k) == "&" + Amps(k - 1);
      assert s == "&" + s[1..];
      ShiftedTail(s[1..], k);
      NeverShifted(s[1..], k + 1);
    }
  }

  lemma ShiftedTail(w: string, k: nat)
    requires k > 0 && "&" + w == Amps(k) + Garbled("&" + w)
    ensures w == Amps(k + 1) + Garbled(w)
  {
    hide Behind, Garbled;
    var x := Behind(w).0 + Garbled(w[Behind(w).1..]);
    GarbledAmp(w);
    AmpsMore(k, x);
    assert Amps(k + 1) + x == "&" + (Amps(k) + x);
    assert ("&" + w)[1..] == w && ("&" + (Amps(k) + x))[1..] == Amps(k) + x;
    assert w == Amps(k) + x && Amps(k)[0] == '&';
    BehindDiffers(w);
    assert w[0..] == w;
    AmpsMore(k, Garbled(w));
  }

  /** The server decodes exactly the strings without an ampersand to themselves. */
  lemma {:induction false} GarbledExact(s: string)
    ensures Garbled(s) == s <==> '&' !in s
    decreases |s|
  {
    if s != "" {
      var tail := s[1..];
      assert s == [s[0]] + tail;
      if s[0] != '&' {
        GarbledExact(tail);
        assert Garbled(s)[1..] == Garbled(tail);
      } else {
        hide Garbled, Behind;
        AmpGarbled(tail);
      }
    }
  }

  lemma AmpGarbled(w: string)
    ensures Garbled("&" + w) != "&" + w
  {
    hide Garbled, Behind;
    GarbledAmp(w);
    BehindDiffers(w);
    NeverShifted(w, 1);
    assert Amps(1) == "&" + Amps(0) && Amps(1) + Garbled(w) == "&" + Garbled(w);
    assert w[0..] == w;
    var x := Behind(w).0 + Garbled(w[Behind(w).1..]);
    assert x != w;
    assert ("&" + x)[1..] == x && ("&" + w)[1..] == w;
  }

  /** The round trip through the server's decoder holds exactly for strings without an ampersand. */
  lemma ServerRoundTrip(s: string)
    ensures ServerDecode(Encode(s)) == s <==> '&' !in s
  {
    ServerDecodesEncoded(s);
    GarbledExact(s);
  }
}
