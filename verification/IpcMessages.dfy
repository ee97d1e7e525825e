/** Request lines of the control socket: the client's printer and the server's parser. */
module IpcMessages {
  import opened IpcText
  import opened Wrappers

  /** parse_message's outputs, and whether a usable REQ was seen. */
  datatype Message = Message(cmd: string, req: nat, src: string, reqFound: bool)

  const BLANK: Message := Message("", 0, "", false)

  predicate Usable(m: Message) {
    m.cmd != "" && m.reqFound
  }

  /** What the client sends. */
  function Line(cmd: string, req: nat, src: string): string {
    "CMD=" + cmd + ";REQ=" + Dec(req) + ";SRC=" + src + "\n"
  }

  function TakeToken(m: Message, token: string): Message {
    if "CMD=" <= token then m.(cmd := Upper(token[4..]))
    else if "REQ=" <= token then
      match ReadReq(token[4..])
      case Some(value) => m.(req := value, reqFound := true)
      case None => m
    else if "SRC=" <= token then m.(src := token[4..])
    else m
  }

  function TakeAll(m: Message, tokens: seq<string>): Message
    decreases |tokens|
  {
    if tokens == [] then m else TakeAll(TakeToken(m, tokens[0]), tokens[1..])
  }

  function Parse(msg: string): Message {
    TakeAll(BLANK, Tokens(Trim(msg)))
  }

  lemma TakeNext(m: Message, token: string, rest: seq<string>)
    ensures TakeAll(m, [token] + rest) == TakeAll(TakeToken(m, token), rest)
  {
  }

  method ParseMessage(line: string) returns (ok: bool, cmd: string, req: nat, src: string)
    ensures var m := Parse(line); cmd == m.cmd && req == m.req && src == m.src && ok == Usable(m)
  {
    hide TakeAll, Tokens, ReadReq, Upper, IndexOf, TakeToken;
    var msg := line;
    while msg != "" && IsLineEnd(msg[|msg| - 1])
      invariant Trim(msg) == Trim(line)
      decreases |msg|
    {
      msg := msg[..|msg| - 1];
    }
    assert msg == Trim(line);
    cmd, req, src := "", 0, "";
    var reqFound := false;
    var pos := 0;
    assert msg[0..] == msg;
    while pos <= |msg|
      invariant 0 <= pos <= |msg|
      invariant TakeAll(Message(cmd, req, src, reqFound), Tokens(msg[pos..])) == Parse(line)
      decreases |msg| - pos
    {
      var next := pos + IndexOf(msg[pos..], ';');
      var token := msg[pos..next];
      TokensFrom(msg, pos);
      TakeNext(Message(cmd, req, src, reqFound), token, if next == |msg| then [] else Tokens(msg[next + 1..]));
      TokenCases(Message(cmd, req, src, reqFound), token);
      if "CMD=" <= token {
        cmd := Upper(token[4..]);
      } else if "REQ=" <= token {
        var value := ReadReq(token[4..]);
        if value.Some? {
          req := value.value;
          reqFound := true;
        }
      } else if "SRC=" <= token {
        src := token[4..];
      }
      if next == |msg| {
        NoMore(Message(cmd, req, src, reqFound));
        break;
      }
      pos := next + 1;
    }
    ok := cmd != "" && reqFound;
  }

  lemma NoMore(m: Message)
    ensures TakeAll(m, []) == m
  {
  }

  lemma TokenCases(m: Message, token: string)
    ensures TakeToken(m, token) ==
            if "CMD=" <= token then m.(cmd := Upper(token[4..]))
            else if "REQ=" <= token then
              (if ReadReq(token[4..]).Some? then m.(req := ReadReq(token[4..]).value, reqFound := true) else m)
            else if "SRC=" <= token then m.(src := token[4..])
            else m
  {
  }

  // ---- Several fields of one name ---------------------------------------------

  /** What follows the key in the last token that starts with it. */
  function LastField(tokens: seq<string>, key: string): Option<string>
    decreases |tokens|
  {
    if tokens == [] then None
    else if LastField(tokens[1..], key).Some? then LastField(tokens[1..], key)
    else if key <= tokens[0] then Some(tokens[0][|key|..])
    else None
  }

  /** The number of the last REQ token that has one. */
  function LastNumber(tokens: seq<string>): Option<nat>
    decreases |tokens|
  {
    if tokens == [] then None
    else if LastNumber(tokens[1..]).Some? then LastNumber(tokens[1..])
    else if "REQ=" <= tokens[0] then ReadReq(tokens[0][4..])
    else None
  }

  /** Of several fields of one name the last one counts, of several numbers the last that
      can be read; tokens of other names count for nothing. */
  lemma {:induction false} LastFieldCounts(m: Message, tokens: seq<string>)
    ensures var r, cmd, src, req := TakeAll(m, tokens), LastField(tokens, "CMD="), LastField(tokens, "SRC="),
                                    LastNumber(tokens);
            && r.cmd == (if cmd.Some? then Upper(cmd.value) else m.cmd)
            && r.src == (if src.Some? then src.value else m.src)
            && r.req == (if req.Some? then req.value else m.req)
            && (r.reqFound <==> m.reqFound || req.Some?)
    decreases |tokens|
  {
    hide Upper, ReadReq;
    if tokens != [] {
      OneKey(tokens[0]);
      LastFieldCounts(TakeToken(m, tokens[0]), tokens[1..]);
    }
  }

  lemma OneKey(token: string)
    ensures "CMD=" <= token ==> token[0] == 'C'
    ensures "REQ=" <= token ==> token[0] == 'R'
    ensures "SRC=" <= token ==> token[0] == 'S'
  {
  }

  /** What the server makes of any datagram. */
  lemma ParsedExactly(line: string)
    ensures var tokens := Tokens(Trim(line));
            var cmd, src, req := LastField(tokens, "CMD="), LastField(tokens, "SRC="), LastNumber(tokens);
            && (Usable(Parse(line)) <==> cmd.Some? && Upper(cmd.value) != "" && req.Some?)
            && (cmd.Some? ==> Parse(line).cmd == Upper(cmd.value))
            && (src.Some? ==> Parse(line).src == src.value)
            && Parse(line).req == (if req.Some? then req.value else 0)
  {
    LastFieldCounts(BLANK, Tokens(Trim(line)));
    hide Tokens, Trim, Upper, TakeAll;
  }

  /** A request line as it goes over the socket. */
  lemma LineOnTheWire()
    ensures Line("LOCK", 12, "DK") == "CMD=LOCK;REQ=12;SRC=DK\n"
  {
    assert Dec(12) == [Digit(1)] + [Digit(2)];
  }

  // ---- Round trip -----------------------------------------------------------

  lemma UpperKeepsSemicolon(s: string)
    ensures ';' in Upper(s) <==> ';' in s
  {
  }

  /** Parsed fields hold no semicolon. */
  lemma {:induction false} FieldsAreTokens(m: Message, tokens: seq<string>)
    requires ';' !in m.cmd && ';' !in m.src
    requires forall i :: 0 <= i < |tokens| ==> ';' !in tokens[i]
    ensures ';' !in TakeAll(m, tokens).cmd && ';' !in TakeAll(m, tokens).src
    decreases |tokens|
  {
    if tokens != [] {
      var t := tokens[0];
      if "CMD=" <= t {
        UpperKeepsSemicolon(t[4..]);
      }
      FieldsAreTokens(TakeToken(m, t), tokens[1..]);
    }
  }

  lemma TakeField(m: Message, key: string, value: string)
    requires key in ["CMD=", "REQ=", "SRC="]
    ensures TakeToken(m, key + value) ==
            if key == "CMD=" then m.(cmd := Upper(value))
            else if key == "SRC=" then m.(src := value)
            else if ReadReq(value).Some? then m.(req := ReadReq(value).value, reqFound := true) else m
    ensures ';' in key + value <==> ';' in value
  {
  }

  lemma LineTokens(cmd: string, req: nat, src: string)
    requires ';' !in cmd && ';' !in src
    ensures Tokens(Trim(Line(cmd, req, src))) == ["CMD=" + cmd, "REQ=" + Dec(req), "SRC=" + Trim(src)]
  {
    hide Tokens, Dec, Trim, ReadReq;
    var first, second := "CMD=" + cmd, "REQ=" + Dec(req);
    var last := "SRC=" + Trim(src);
    TakeField(BLANK, "CMD=", cmd);
    TakeField(BLANK, "REQ=", Dec(req));
    TakeField(BLANK, "SRC=", Trim(src));
    TrimLine(cmd, req, src);
    TokensOf(first, second + ";" + last);
    TokensOf(second, last);
    LastToken(last);
  }

  lemma TrimLine(cmd: string, req: nat, src: string)
    ensures Trim(Line(cmd, req, src)) == ("CMD=" + cmd) + ";" + (("REQ=" + Dec(req)) + ";" + ("SRC=" + Trim(src)))
  {
    hide Dec, Trim;
    var head := "CMD=" + cmd + ";REQ=" + Dec(req) + ";SRC=";
    assert Line(cmd, req, src) == head + (src + "\n");
    assert head[|head| - 1] == '=';
    TrimTail(head, src + "\n");
    TrimNewline(src);
  }

  lemma TrimNewline(s: string)
    ensures Trim(s + "\n") == Trim(s)
  {
  }

  /** What the server makes of a line whose fields hold no semicolon. */
  lemma ParsedLine(cmd: string, req: nat, src: string)
    requires ';' !in cmd && ';' !in src
    ensures Parse(Line(cmd, req, src)) ==
            Message(Upper(cmd), if req <= MAX_U64 then req else 0, Trim(src), req <= MAX_U64)
  {
    hide Tokens, Dec, Trim, ReadReq, TakeToken, TakeAll, Upper, Line;
    LineTokens(cmd, req, src);
    ReadBack(req);
    var a, b, c := "CMD=" + cmd, "REQ=" + Dec(req), "SRC=" + Trim(src);
    var m := TakeToken(BLANK, a);
    TakeField(BLANK, "CMD=", cmd);
    TakeField(m, "REQ=", Dec(req));
    TakeField(TakeToken(m, b), "SRC=", Trim(src));
    assert [a, b, c] == [a] + [b, c] && [b, c] == [b] + [c] && [c] == [c] + [];
    TakeNext(BLANK, a, [b, c]);
    TakeNext(m, b, [c]);
    TakeNext(TakeToken(m, b), c, []);
    NoMore(TakeToken(TakeToken(m, b), c));
  }

  /** The server reads back exactly what the client meant if and only if the command is
      not empty, neither field holds a semicolon, the source does not end in CR or LF and
      the number fits 64 bits. */
  lemma RoundTripExactly(cmd: string, req: nat, src: string)
    ensures Parse(Line(cmd, req, src)) == Message(Upper(cmd), req, src, true) && Usable(Parse(Line(cmd, req, src))) <==>
            && cmd != "" && ';' !in cmd && ';' !in src
            && (src == "" || !IsLineEnd(src[|src| - 1])) && req <= MAX_U64
  {
    hide TakeAll, TakeToken, Tokens, Dec;
    var line := Line(cmd, req, src);
    FieldsAreTokens(BLANK, Tokens(Trim(line)));
    UpperKeepsSemicolon(cmd);
    if ';' !in cmd && ';' !in src {
      ParsedLine(cmd, req, src);
    }
  }
}
