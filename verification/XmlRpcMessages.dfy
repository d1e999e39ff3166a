/** Whole XML-RPC messages: what one side builds the other takes apart. */
module XmlRpcMessages {
  import opened Options
  import opened XmlRpc

  // ---------- searching for tags ----------

  /** g_strstr_len: where a word first occurs. */
  function Find(text: string, w: string): (k: Option<nat>)
    ensures k.Some? ==> k.value + |w| <= |text| && w <= text[k.value..]
  {
    if w <= text then Some(0)
    else if text == "" then None
    else
      match Find(text[1..], w)
      case None => None
      case Some(k) => Some(k + 1)
  }

  /** The place found is the first. */
  lemma {:induction false} FindFirst(text: string, w: string, k: nat)
    requires k <= |text| && w <= text[k..] && forall i :: 0 <= i < k ==> !(w <= text[i..])
    ensures Find(text, w) == Some(k)
  {
    assert text[0..] == text;
    if k > 0 {
      assert forall i :: 0 <= i < k - 1 ==> text[1..][i..] == text[i + 1..];
      assert text[1..][k - 1..] == text[k..];
      FindFirst(text[1..], w, k - 1);
    }
  }

  function After(text: string, w: string): Option<string> {
    match Find(text, w)
    case None => None
    case Some(k) => Some(text[k + |w|..])
  }

  function Before(text: string, w: string): Option<string> {
    match Find(text, w)
    case None => None
    case Some(k) => Some(text[..k])
  }

  lemma FindHere(w: string, rest: string)
    ensures After(w + rest, w) == Some(rest) && Before(w + rest, w) == Some("")
  {
    assert (w + rest)[|w|..] == rest && w <= w + rest;
  }

  /** Text without a tag is passed over. */
  lemma {:induction false} SkipPlain(p: string, rest: string, w: string)
    requires w != "" && w[0] == '<' && '<' !in p
    ensures After(p + rest, w) == After(rest, w)
    ensures Before(p + rest, w) == match Before(rest, w) case None => None case Some(b) => Some(p + b)
    decreases |p|
  {
    var text := p + rest;
    if p == "" {
      assert text == rest;
      if Before(rest, w).Some? { assert "" + Before(rest, w).value == Before(rest, w).value; }
    } else {
      assert text[0] == p[0] && p[0] in p && text[1..] == p[1..] + rest;
      SkipPlain(p[1..], rest, w);
      SkipOne(text, w);
      if Before(rest, w).Some? { assert [p[0]] + (p[1..] + Before(rest, w).value) == p + Before(rest, w).value; }
    }
  }

  lemma SkipOne(text: string, w: string)
    requires text != "" && !(w <= text)
    ensures After(text, w) == After(text[1..], w)
    ensures Before(text, w) == match Before(text[1..], w) case None => None case Some(b) => Some([text[0]] + b)
  {
    match Find(text[1..], w)
    case None =>
    case Some(k) =>
      assert text[1..][k + |w|..] == text[k + 1 + |w|..];
      assert [text[0]] + text[1..][..k] == text[..k + 1];
  }

  /** So is another tag and the text behind it. */
  lemma SkipTag(p: string, i: nat, rest: string, w: string)
    requires i < |p| && i < |w| && p[i] != w[i] && w[0] == '<' && '<' !in p[1..]
    ensures After(p + rest, w) == After(rest, w)
  {
    var text := p + rest;
    assert text[i] == p[i] && text[1..] == p[1..] + rest;
    assert !(w <= text);
    SkipOne(text, w);
    SkipPlain(p[1..], rest, w);
  }

  // ---------- the request ----------

  const TITLE := "<?xml version=\"1.0\"?>\n"
  const CALL := "<methodCall>\n"
  const METHOD := "<methodName>"
  const METHOD_END := "</methodName>"
  const PARAMS := "<params>\n"
  const PARAM := "<param>"
  const VALUE := "<value>"
  const STRING := "<string>"
  const STRING_END := "</string>"
  const CALL_TAIL := "</value></param>\n</params>\n</methodCall>\n"

  /** build_xmlrpc_message, without the HTTP header. */
  function Message(name: string, param: string): string {
    TITLE + (CALL + (METHOD + (name + (METHOD_END + ("\n" + (PARAMS + (PARAM + (VALUE + (STRING +
      (Encode(param) + (STRING_END + CALL_TAIL)))))))))))
  }

  datatype Request = Malformed | Call(name: string, param: Option<string>)

  /** extract_xmlrpc_request. */
  function Extract(text: string): Request {
    match After(text, METHOD)
    case None => Malformed
    case Some(s) =>
      match Before(s, METHOD_END)
      case None => Malformed
      case Some(name) =>
        match After(text, STRING)
        case None => Call(name, None)
        case Some(t) =>
          match Before(t, STRING_END)
          case None => Malformed
          case Some(coded) => Call(name, Some(ServerDecode(coded)))
  }

  /** Text in front of its end tag is what is taken. */
  lemma TakePlain(p: string, w: string, rest: string)
    requires w != "" && w[0] == '<' && '<' !in p
    ensures Before(p + (w + rest), w) == Some(p)
  {
    SkipPlain(p, w + rest, w);
    FindHere(w, rest);
    assert p + "" == p;
  }

  lemma MethodFound(name: string, rest: string)
    requires '<' !in name
    ensures var text := TITLE + (CALL + (METHOD + (name + (METHOD_END + rest))));
            After(text, METHOD) == Some(name + (METHOD_END + rest))
              && Before(name + (METHOD_END + rest), METHOD_END) == Some(name)
  {
    hide After, Before;
    var a := name + (METHOD_END + rest);
    FindHere(METHOD, a);
    assert CALL[7] == 'C' && METHOD[7] == 'N';
    SkipTag(CALL, 7, METHOD + a, METHOD);
    SkipTag(TITLE, 1, CALL + (METHOD + a), METHOD);
    TakePlain(name, METHOD_END, rest);
  }

  lemma FrontPassed(name: string, rest: string)
    requires '<' !in name
    ensures After(TITLE + (CALL + (METHOD + (name + (METHOD_END + rest)))), STRING) == After(rest, STRING)
  {
    hide After;
    TitlePassed(METHOD + (name + (METHOD_END + rest)));
    NamePassed(name, rest);
  }

  lemma TitlePassed(rest: string)
    ensures After(TITLE + (CALL + rest), STRING) == After(rest, STRING)
  {
    hide After;
    SkipTag(CALL, 1, rest, STRING);
    SkipTag(TITLE, 1, CALL + rest, STRING);
  }

  lemma NamePassed(name: string, rest: string)
    requires '<' !in name
    ensures After(METHOD + (name + (METHOD_END + rest)), STRING) == After(rest, STRING)
  {
    hide After;
    SkipTag(METHOD_END, 1, rest, STRING);
    SkipPlain(name, METHOD_END + rest, STRING);
    SkipTag(METHOD, 1, name + (METHOD_END + rest), STRING);
  }

  lemma TailPassed(rest: string)
    ensures After("\n" + (PARAMS + (PARAM + (VALUE + (STRING + rest)))), STRING) == Some(rest)
  {
    hide After;
    var a := STRING + rest;
    FindHere(STRING, rest);
    SkipTag(VALUE, 1, a, STRING);
    SkipTag(PARAM, 1, VALUE + a, STRING);
    SkipTag(PARAMS, 1, PARAM + (VALUE + a), STRING);
    SkipPlain("\n", PARAMS + (PARAM + (VALUE + a)), STRING);
  }

  /** The server takes from a request its method and what its decoder makes of the parameter. */
  lemma RequestExtracted(name: string, param: string)
    requires '<' !in name
    ensures Extract(Message(name, param)) == Call(name, Some(ServerDecode(Encode(param))))
  {
    hide After, Before, Encode, ServerDecode;
    var rest := "\n" + (PARAMS + (PARAM + (VALUE + (STRING + (Encode(param) + (STRING_END + CALL_TAIL))))));
    MethodFound(name, rest);
    FrontPassed(name, rest);
    TailPassed(Encode(param) + (STRING_END + CALL_TAIL));
    EncodedPlain(param);
    TakePlain(Encode(param), STRING_END, CALL_TAIL);
  }

  /** A request arrives as it was sent exactly when its parameter has no ampersand. */
  lemma RequestRoundTrip(name: string, param: string)
    requires '<' !in name
    ensures Extract(Message(name, param)) == Call(name, Some(param)) <==> '&' !in param
  {
    hide Message, Extract;
    RequestExtracted(name, param);
    ServerRoundTrip(param);
  }

  // ---------- the response ----------

  const RESPONSE_TITLE := "<?xml version=\"1.0\"?> "
  const RESPONSE := "<methodResponse> "
  const RESPONSE_PARAMS := "<params> "
  const RESPONSE_PARAM := "<param> "
  const RESPONSE_TAIL := "</value> </param> </params> </methodResponse>\n"

  /** create_response_string, without the HTTP header. */
  function Response(reply: string): string {
    RESPONSE_TITLE + (RESPONSE + (RESPONSE_PARAMS + (RESPONSE_PARAM + (VALUE + (STRING +
      (Encode(reply) + (STRING_END + RESPONSE_TAIL)))))))
  }

  /** Endless when no tag follows: the decoder would run off the text. */
  datatype Reply = NoString | Endless | Got(text: string)

  /** The client's side of the response: from the first string tag up to the next tag. */
  function ReplyOf(body: string): Reply {
    match After(body, STRING)
    case None => NoString
    case Some(t) =>
      match Before(t, "<")
      case None => Endless
      case Some(coded) => Got(ClientDecode(coded))
  }

  lemma ResponsePassed(rest: string)
    ensures After(RESPONSE_TITLE + (RESPONSE + (RESPONSE_PARAMS + (RESPONSE_PARAM + (VALUE + (STRING + rest))))),
            STRING) == Some(rest)
  {
    hide After;
    ValuePassed(rest);
    ParamPassed(VALUE + (STRING + rest));
    ResponseTitlePassed(RESPONSE_PARAMS + (RESPONSE_PARAM + (VALUE + (STRING + rest))));
  }

  lemma ValuePassed(rest: string)
    ensures After(VALUE + (STRING + rest), STRING) == Some(rest)
  {
    hide After;
    FindHere(STRING, rest);
    SkipTag(VALUE, 1, STRING + rest, STRING);
  }

  lemma ParamPassed(rest: string)
    ensures After(RESPONSE_PARAMS + (RESPONSE_PARAM + rest), STRING) == After(rest, STRING)
  {
    hide After;
    SkipTag(RESPONSE_PARAM, 1, rest, STRING);
    SkipTag(RESPONSE_PARAMS, 1, RESPONSE_PARAM + rest, STRING);
  }

  lemma ResponseTitlePassed(rest: string)
    ensures After(RESPONSE_TITLE + (RESPONSE + rest), STRING) == After(rest, STRING)
  {
    hide After;
    SkipTag(RESPONSE, 1, rest, STRING);
    SkipTag(RESPONSE_TITLE, 1, RESPONSE + rest, STRING);
  }

  /** Every reply of the server arrives as it was sent. */
  lemma ResponseRoundTrip(reply: string)
    ensures ReplyOf(Response(reply)) == Got(reply)
  {
    hide After, Before, Encode, ClientDecode;
    ResponsePassed(Encode(reply) + (STRING_END + RESPONSE_TAIL));
    EncodedPlain(reply);
    EndTag(Encode(reply), RESPONSE_TAIL);
    ClientRoundTrip(reply);
  }

  lemma EndTag(coded: string, tail: string)
    requires '<' !in coded
    ensures Before(coded + (STRING_END + tail), "<") == Some(coded)
  {
    hide Before;
    assert STRING_END + tail == "<" + ("/string>" + tail);
    TakePlain(coded, "<", "/string>" + tail);
  }

  /** A call, end to end: the server's handler sees the parameter and the client its reply. */
  lemma CallRoundTrip(name: string, param: string, handler: (string, string) -> string)
    requires '<' !in name && '&' !in param
    ensures var request := Extract(Message(name, param));
            && request == Call(name, Some(param))
            && ReplyOf(Response(handler(request.name, request.param.value))) == Got(handler(name, param))
  {
    hide Message, Extract, Response, ReplyOf;
    RequestRoundTrip(name, param);
    ResponseRoundTrip(handler(name, param));
  }

  // ---------- the loops ----------

  /** The encoding loop of both sides. */
  method EncodeText(s: string) returns (t: string)
    ensures t == Encode(s)
  {
    hide Encode;
    t := "";
    var p := 0;
    EncodeEnds(s);
    while p < |s|
      invariant 0 <= p <= |s| && t + Encode(s[p..]) == Encode(s)
    {
      var c := s[p];
      EncodeStep(t, s, p);
      ghost var before := t;
      p := p + 1;
      match c
      case '&' => t := t + "&amp;";
      case '<' => t := t + "&lt;";
      case '>' => t := t + "&gt;";
      case _ => t := t + [c];
      assert t == before + EncodeChar(c);
    }
    assert t + "" == t;
  }

  lemma EncodeEnds(s: string)
    ensures "" + Encode(s[0..]) == Encode(s) && Encode(s[|s|..]) == ""
  {
    assert s[0..] == s && s[|s|..] == "";
  }

  lemma EncodeStep(t: string, s: string, p: nat)
    requires p < |s|
    ensures t + Encode(s[p..]) == (t + EncodeChar(s[p])) + Encode(s[p + 1..])
  {
    hide EncodeChar;
    assert s[p..][0] == s[p] && s[p..][1..] == s[p + 1..];
  }

  /** The word stands at a place of the text. */
  predicate At(text: string, p: nat, w: string)
    requires p <= |text|
  {
    w <= text[p..]
  }

  /** Looking for an entity never reaches over the next tag. */
  lemma LookAhead(text: string, p: nat, end: nat, w: string)
    requires p <= end < |text| && text[end] == '<' && '<' !in w
    ensures At(text, p, w) <==> w <= text[p..end]
  {
    if |w| > end - p {
      assert text[p..][end - p] == '<' && w[end - p] in w;
    }
  }

  lemma Tagless(t: string) returns (k: nat)
    requires '<' in t
    ensures k < |t| && t[k] == '<' && (forall i :: 0 <= i < k ==> t[i] != '<') && Before(t, "<") == Some(t[..k])
  {
    if t[0] == '<' {
      k := 0;
    } else {
      assert t == [t[0]] + t[1..];
      k := Tagless(t[1..]);
      assert t[..k + 1] == [t[0]] + t[1..][..k];
      k := k + 1;
    }
  }

  /** What the client puts out behind an ampersand, and how much text it takes. */
  function Entity(r: string): (e: (string, nat))
    ensures e.1 <= |r|
  {
    if "amp;" <= r then ("&", 4) else if "lt;" <= r then ("<", 3) else if "gt;" <= r then (">", 3) else ("&", 0)
  }

  /** The decoding loop of the client: it ends at the first tag, which has to be there. */
  method ClientDecodeText(text: string, start: nat) returns (out: string)
    requires start <= |text| && '<' in text[start..]
    ensures Before(text[start..], "<").Some? && out == ClientDecode(Before(text[start..], "<").value)
  {
    hide *;
    ghost var end := FirstTag(text, start);
    out := "";
    var p := start;
    while text[p] != '<'
      invariant start <= p <= end < |text| && text[end] == '<'
      invariant out + ClientDecode(text[p..end]) == ClientDecode(text[start..end])
      decreases end - p
    {
      var c := text[p];
      ClientStep(out, text, p, end);
      p := p + 1;
      ghost var e, rest := Entity(text[p..end]), text[start..end];
      if c == '&' {
        EntityAhead(text, p, end);
        assert p + e.1 <= end && (out + e.0) + ClientDecode(text[p + e.1..end]) == ClientDecode(rest);
        if At(text, p, "amp;") {
          out, p := out + "&", p + 4;
        } else if At(text, p, "lt;") {
          out, p := out + "<", p + 3;
        } else if At(text, p, "gt;") {
          out, p := out + ">", p + 3;
        } else {
          out := out + "&";
        }
      } else {
        out := out + [c];
      }
    }
    TagAtEnd(text, start, p, end);
    ClientEnd(text, end);
    assert out + "" == out;
  }

  ghost predicate NoTag(text: string, start: nat, end: nat) {
    end <= |text| && forall i :: start <= i < end ==> text[i] != '<'
  }

  lemma FirstTag(text: string, start: nat) returns (end: nat)
    requires start <= |text| && '<' in text[start..]
    ensures start <= end < |text| && text[end] == '<' && NoTag(text, start, end)
    ensures Before(text[start..], "<") == Some(text[start..end])
  {
    hide Before;
    var k := Tagless(text[start..]);
    end := start + k;
    assert text[start..][..k] == text[start..end];
    assert forall i :: start <= i < end ==> text[start..][i - start] == text[i];
  }

  lemma TagAtEnd(text: string, start: nat, p: nat, end: nat)
    requires NoTag(text, start, end) && start <= p <= end < |text| && text[p] == '<'
    ensures p == end
  {
  }

  lemma ClientEnd(text: string, end: nat)
    requires end < |text|
    ensures ClientDecode(text[end..end]) == ""
  {
    assert text[end..end] == "";
  }

  lemma EntityAhead(text: string, p: nat, end: nat)
    requires p <= end < |text| && text[end] == '<'
    ensures Entity(text[p..end]) ==
            if At(text, p, "amp;") then ("&", 4) else if At(text, p, "lt;") then ("<", 3)
            else if At(text, p, "gt;") then (">", 3) else ("&", 0)
  {
    LookAhead(text, p, end, "amp;");
    LookAhead(text, p, end, "lt;");
    LookAhead(text, p, end, "gt;");
  }

  lemma ClientStep(out: string, text: string, p: nat, end: nat)
    requires p < end <= |text|
    ensures var (e, n) := Entity(text[p + 1..end]);
            out + ClientDecode(text[p..end]) ==
            if text[p] != '&' then (out + [text[p]]) + ClientDecode(text[p + 1..end])
            else (out + e) + ClientDecode(text[p + 1 + n..end])
  {
    hide Entity, ClientDecode;
    ClientFirst(text, p, end);
  }

  lemma ClientFirst(text: string, p: nat, end: nat)
    requires p < end <= |text|
    ensures var (e, n) := Entity(text[p + 1..end]);
            ClientDecode(text[p..end]) ==
            if text[p] != '&' then [text[p]] + ClientDecode(text[p + 1..end])
              else e + ClientDecode(text[p + 1 + n..end])
  {
    var t := text[p..end];
    var n := Entity(text[p + 1..end]).1;
    assert t[1..] == text[p + 1..end] && t[1 + n..] == text[p + 1 + n..end];
  }

  /** The decoding loop of the server: it takes a character first and looks at the end after. */
  method ServerDecodeText(text: string, start: nat, end: nat) returns (out: string)
    requires start <= end < |text| && text[end] == '<'
    ensures out == ServerDecode(text[start..end])
  {
    hide ServerDecode, Behind, At, Amp;
    out := "";
    var p := start;
    while p < |text|
      invariant start <= p <= end
      invariant out + ServerDecode(text[p..end]) == ServerDecode(text[start..end])
      decreases end + 1 - p
    {
      var c := text[p];
      p := p + 1;
      if p > end {
        ServerEnd(text, end);
        assert out + "" == out;
        return;
      }
      ServerStep(out, text, p - 1, end);
      if c == '&' {
        AmpAhead(text, p, end);
        if At(text, p, "amp;") {
          out, p := out + "&", p + 4;
        }
        BehindAhead(text, p, end);
        if At(text, p, "quot;") {
          out, p := out + "\"", p + 5;
        } else if At(text, p, "lt;") {
          out, p := out + "<", p + 3;
        } else if At(text, p, "gt;") {
          out, p := out + ">", p + 3;
        } else {
          out := out + "&";
        }
      } else {
        out := out + [c];
      }
    }
  }

  lemma ServerEnd(text: string, end: nat)
    requires end < |text|
    ensures ServerDecode(text[end..end]) == ""
  {
    assert text[end..end] == "";
  }

  lemma AmpAhead(text: string, p: nat, end: nat)
    requires p <= end < |text| && text[end] == '<'
    ensures At(text, p, "amp;") <==> Amp(text[p..end])
    ensures Amp(text[p..end]) ==> p + 4 <= end
  {
    LookAhead(text, p, end, "amp;");
  }

  predicate Amp(r: string) {
    "amp;" <= r
  }

  lemma BehindAhead(text: string, p: nat, end: nat)
    requires p <= end < |text| && text[end] == '<'
    ensures Behind(text[p..end]) ==
            if At(text, p, "quot;") then ("\"", 5) else if At(text, p, "lt;") then ("<", 3)
            else if At(text, p, "gt;") then (">", 3) else ("&", 0)
  {
    LookAhead(text, p, end, "quot;");
    LookAhead(text, p, end, "lt;");
    LookAhead(text, p, end, "gt;");
  }

  /** The text from p on: what the first choice puts out, and where the second one looks. */
  lemma ServerStep(out: string, text: string, p: nat, end: nat)
    requires p < end <= |text|
    ensures var amp := Amp(text[p + 1..end]);
            var q := if amp then p + 5 else p + 1;
            && q <= end
            && out + ServerDecode(text[p..end]) ==
               if text[p] != '&' then (out + [text[p]]) + ServerDecode(text[p + 1..end])
               else
                 var (e, n) := Behind(text[q..end]);
                 ((if amp then out + "&" else out) + e) + ServerDecode(text[q + n..end])
  {
    hide Behind, ServerDecode;
    if text[p] != '&' {
      ServerPlain(text, p, end);
    } else {
      ServerAmp(text, p, end);
    }
  }

  lemma ServerPlain(text: string, p: nat, end: nat)
    requires p < end <= |text| && text[p] != '&'
    ensures ServerDecode(text[p..end]) == [text[p]] + ServerDecode(text[p + 1..end])
  {
    assert text[p..end][1..] == text[p + 1..end];
  }

  lemma ServerAmp(text: string, p: nat, end: nat)
    requires p < end <= |text| && text[p] == '&'
    ensures var amp := Amp(text[p + 1..end]);
            var q := if amp then p + 5 else p + 1;
            && q <= end
            && ServerDecode(text[p..end]) ==
               var (e, n) := Behind(text[q..end]);
               (if amp then "&" else "") + (e + ServerDecode(text[q + n..end]))
  {
    hide Behind;
    var t := text[p..end];
    assert t[1..] == text[p + 1..end];
    var q := if Amp(text[p + 1..end]) then p + 5 else p + 1;
    var n := Behind(text[q..end]).1;
    assert t[q - p..] == text[q..end] && t[q - p + n..] == text[q + n..end];
  }
}
