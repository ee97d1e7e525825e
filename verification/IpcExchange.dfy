/** The control socket's server and client around one request and reply. */
module IpcExchange {
  import opened IpcMessages
  import opened IpcText
  import opened Wrappers

  /** The shared flags that requests read and write. */
  datatype Car = Car(running: bool, doorLocked: bool, engineOn: bool)

  const BUFFER: nat := 255

  /** What recvfrom leaves of a datagram in a buffer of 256 octets with room for a NUL. */
  function Received(datagram: string): (r: string)
    ensures r <= datagram && (|r| == |datagram| || (|r| == 255 && |datagram| > 255)) && |r| <= 255
  {
    if |datagram| <= BUFFER then datagram else datagram[..BUFFER]
  }

  function Bit(b: bool): string {
    if b then "1" else "0"
  }

  function OkReply(req: nat, extra: string): string {
    "OK;REQ=" + Dec(req) + extra + "\n"
  }

  function ErrReply(req: nat, reason: string): string {
    "ERR;" + reason + ";REQ=" + Dec(req) + "\n"
  }

  function StateText(car: Car): string {
    ";LOCKED=" + Bit(car.doorLocked) + ";ENGINE=" + Bit(car.engineOn)
  }

  /** The flags after a command. */
  function Execute(car: Car, cmd: string): Car {
    if !car.running then car
    else if cmd == "LOCK" then car.(doorLocked := true)
    else if cmd == "UNLOCK" then car.(doorLocked := false)
    else if cmd == "START" then car.(engineOn := true)
    else if cmd == "STOP" then car.(engineOn := false)
    else car
  }

  predicate Known(cmd: string) {
    cmd == "LOCK" || cmd == "UNLOCK" || cmd == "START" || cmd == "STOP" || cmd == "GET_ALL"
  }

  function Reply(car: Car, m: Message): string {
    if !Usable(m) then ErrReply(m.req, "badmsg")
    else if !car.running then ErrReply(m.req, "stopped")
    else if !Known(m.cmd) then ErrReply(m.req, "badcmd")
    else OkReply(m.req, if m.cmd == "GET_ALL" then StateText(car) else "")
  }

  class Server {
    var running: bool
    var doorLocked: bool
    var engineOn: bool

    function Abs(): Car
      reads this
    {
      Car(running, doorLocked, engineOn)
    }

    constructor (car: Car)
      ensures Abs() == car
    {
      running, doorLocked, engineOn := car.running, car.doorLocked, car.engineOn;
    }

    /** One turn of the server loop with a datagram that is not empty. */
    method Serve(datagram: string) returns (response: string)
      modifies this
      ensures var m := Parse(Received(datagram));
              response == Reply(old(Abs()), m) && Abs() == if Usable(m) then Execute(old(Abs()), m.cmd) else old(Abs())
    {
      hide Parse, Dec;
      var parsed, cmd, req, src := ParseMessage(Received(datagram));
      var ok := parsed;
      var reason := if parsed then "" else "badmsg";
      var extra := "";
      if ok {
        if !running {
          ok := false;
          reason := "stopped";
        } else if cmd == "LOCK" {
          doorLocked := true;
        } else if cmd == "UNLOCK" {
          doorLocked := false;
        } else if cmd == "START" {
          engineOn := true;
        } else if cmd == "STOP" {
          engineOn := false;
        } else if cmd == "GET_ALL" {
          extra := ";LOCKED=" + Bit(doorLocked);
          extra := extra + ";ENGINE=" + Bit(engineOn);
        } else {
          ok := false;
          reason := "badcmd";
        }
      }
      if ok {
        response := "OK;REQ=" + Dec(req) + extra + "\n";
      } else {
        response := "ERR;" + reason + ";REQ=" + Dec(req) + "\n";
      }
    }
  }

  // ---- The client's test of a reply ------------------------------------------

  predicate Occurs(s: string, part: string, k: int) {
    0 <= k <= |s| - |part| && s[k..k + |part|] == part
  }

  predicate Contains(s: string, part: string) {
    exists k :: 0 <= k <= |s| && Occurs(s, part, k)
  }

  /** send_cmd takes a reply as success when it starts with OK; and mentions the number. */
  predicate ClientAccepts(req: nat, reply: string) {
    "OK;" <= reply && Contains(reply, "REQ=" + Dec(req))
  }

  /** The only Q of a success reply is that of REQ. */
  lemma OnlyQ(digits: string, tail: string)
    requires forall j :: 0 <= j < |digits| ==> IsDigit(digits[j])
    requires forall j :: 0 <= j < |tail| ==> tail[j] != 'Q'
    ensures var reply := "OK;REQ=" + digits + tail; forall i :: 0 <= i < |reply| && i != 5 ==> reply[i] != 'Q'
  {
  }

  lemma OccursAt(s: string, part: string, k: int, j: nat)
    requires Occurs(s, part, k) && j < |part|
    ensures 0 <= k && k + j < |s| && s[k + j] == part[j]
  {
  }

  lemma NumberFound(req: nat, digits: string, tail: string)
    requires forall j :: 0 <= j < |digits| ==> IsDigit(digits[j])
    requires forall j :: 0 <= j < |tail| ==> tail[j] != 'Q'
    requires tail != "" && !IsDigit(tail[0])
    ensures Contains("OK;REQ=" + digits + tail, "REQ=" + Dec(req)) <==> Dec(req) <= digits
  {
    hide Dec, Occurs;
    var reply, part := "OK;REQ=" + digits + tail, "REQ=" + Dec(req);
    if Dec(req) <= digits {
      FoundAfterHead(Dec(req), digits, tail);
    }
    if Contains(reply, part) {
      var k :| 0 <= k <= |reply| && Occurs(reply, part, k);
      OccursAt(reply, part, k, 2);
      OnlyQ(digits, tail);
      assert k == 3;
      PrefixOfDigits(Dec(req), digits, tail);
    }
  }

  lemma FoundAfterHead(d: string, digits: string, tail: string)
    requires d <= digits
    ensures Occurs("OK;REQ=" + digits + tail, "REQ=" + d, 3)
  {
  }

  lemma PrefixOfDigits(d: string, digits: string, tail: string)
    requires Occurs("OK;REQ=" + digits + tail, "REQ=" + d, 3)
    requires forall j :: 0 <= j < |d| ==> IsDigit(d[j])
    requires tail != "" && !IsDigit(tail[0])
    ensures d <= digits
  {
    var reply, part := "OK;REQ=" + digits + tail, "REQ=" + d;
    forall j | 0 <= j < |d|
      ensures 7 + j < |reply| && reply[7 + j] == d[j]
    {
      OccursAt(reply, part, 3, 4 + j);
    }
    assert reply[7 + |digits|] == tail[0];
    assert |d| <= |digits|;
    assert forall j :: 0 <= j < |d| ==> reply[7 + j] == digits[j];
  }

  lemma TailOfReply(car: Car, m: Message)
    ensures var tail := (if m.cmd == "GET_ALL" then StateText(car) else "") + "\n";
            tail != "" && !IsDigit(tail[0]) && forall j :: 0 <= j < |tail| ==> tail[j] != 'Q'
  {
  }

  lemma SameDigits(a: nat, b: nat)
    requires |Dec(a)| == |Dec(b)|
    ensures Dec(a) <= Dec(b) <==> a == b
  {
    NumberOfDec(a);
    NumberOfDec(b);
    assert Dec(b)[..|Dec(b)|] == Dec(b);
  }

  /** The client takes the server's reply as success exactly when the server executed the
      command and the client's number is a decimal prefix of the number replied to: a late
      reply to a longer number passes too, one to another number of as many digits does
      not. */
  lemma AcceptedExactly(car: Car, m: Message, req: nat)
    ensures ClientAccepts(req, Reply(car, m)) <==>
            Usable(m) && car.running && Known(m.cmd) && Dec(req) <= Dec(m.req)
    ensures |Dec(req)| == |Dec(m.req)| ==> (Dec(req) <= Dec(m.req) <==> req == m.req)
  {
    hide Dec, Contains, StateText;
    if |Dec(req)| == |Dec(m.req)| {
      SameDigits(req, m.req);
    }
    if Usable(m) && car.running && Known(m.cmd) {
      var extra := if m.cmd == "GET_ALL" then StateText(car) else "";
      TailOfReply(car, m);
      NumberFound(req, Dec(m.req), extra + "\n");
      assert Reply(car, m) == "OK;REQ=" + Dec(m.req) + (extra + "\n");
      assert "OK;" <= Reply(car, m);
    } else {
      assert Reply(car, m)[0] == 'E';
    }
  }

  const THIRTEEN_DIGITS_FROM: nat := 1_000_000_000_000
  const THIRTEEN_DIGITS_BELOW: nat := 10_000_000_000_000

  /** Request numbers are milliseconds since 1970, which have thirteen digits from 2001 to
      2286: then success means that the server executed this very request. */
  lemma OwnReplyOnly(car: Car, m: Message, req: nat)
    requires THIRTEEN_DIGITS_FROM <= req < THIRTEEN_DIGITS_BELOW
    requires THIRTEEN_DIGITS_FROM <= m.req < THIRTEEN_DIGITS_BELOW
    ensures ClientAccepts(req, Reply(car, m)) <==> Usable(m) && car.running && Known(m.cmd) && req == m.req
  {
    hide Dec, ClientAccepts, Reply, Usable, Known;
    AcceptedExactly(car, m, req);
    ThirteenDigits(req);
    ThirteenDigits(m.req);
  }

  lemma ThirteenDigits(n: nat)
    requires THIRTEEN_DIGITS_FROM <= n < THIRTEEN_DIGITS_BELOW
    ensures |Dec(n)| == 13
  {
    assert PowerOfTen(3) == 1_000;
    assert PowerOfTen(6) == 1_000_000;
    assert PowerOfTen(9) == 1_000_000_000;
    assert PowerOfTen(12) == THIRTEEN_DIGITS_FROM;
    DigitCount(n, 12);
  }

  /** A request that fits the buffer, from the client to the server and back: success
      means executed. */
  lemma Exchange(car: Car, cmd: string, req: nat, src: string)
    requires cmd != "" && ';' !in cmd && ';' !in src && (src == "" || !IsLineEnd(src[|src| - 1])) && req <= MAX_U64
    requires |Line(cmd, req, src)| <= 255
    ensures var m := Parse(Received(Line(cmd, req, src)));
            && m.cmd == Upper(cmd) && m.req == req
            && (ClientAccepts(req, Reply(car, m)) <==>
                  car.running && Upper(cmd) in ["LOCK", "UNLOCK", "START", "STOP", "GET_ALL"])
  {
    hide Parse, Reply, ClientAccepts, Dec, Line, Upper, Known;
    var m := Parse(Received(Line(cmd, req, src)));
    RoundTripExactly(cmd, req, src);
    AcceptedExactly(car, m, req);
    KnownCommands(Upper(cmd));
  }

  lemma KnownCommands(cmd: string)
    ensures Known(cmd) <==> cmd in ["LOCK", "UNLOCK", "START", "STOP", "GET_ALL"]
  {
  }

  /** The texts of the replies; a request that is turned down changes no flag. */
  lemma ReplyTexts(car: Car, m: Message)
    ensures !Usable(m) ==> Reply(car, m) == "ERR;badmsg;REQ=" + Dec(m.req) + "\n"
    ensures !car.running ==> Execute(car, m.cmd) == car
    ensures Usable(m) && !car.running ==> Reply(car, m) == "ERR;stopped;REQ=" + Dec(m.req) + "\n"
    ensures Usable(m) && car.running && !Known(m.cmd) ==>
              Reply(car, m) == "ERR;badcmd;REQ=" + Dec(m.req) + "\n" && Execute(car, m.cmd) == car
    ensures Usable(m) && car.running && Known(m.cmd) && m.cmd != "GET_ALL" ==>
              Reply(car, m) == "OK;REQ=" + Dec(m.req) + "\n"
    ensures Usable(m) && car.running && m.cmd == "GET_ALL" ==>
              Reply(car, m) == "OK;REQ=" + Dec(m.req) + (if car.doorLocked then ";LOCKED=1" else ";LOCKED=0")
                               + (if car.engineOn then ";ENGINE=1" else ";ENGINE=0") + "\n"
  {
    hide Dec;
    ReplyText(car, m);
    BitTexts(car.doorLocked, car.engineOn);
  }

  lemma BitTexts(lock: bool, engine: bool)
    ensures ";LOCKED=" + Bit(lock) == if lock then ";LOCKED=1" else ";LOCKED=0"
    ensures ";ENGINE=" + Bit(engine) == if engine then ";ENGINE=1" else ";ENGINE=0"
  {
  }

  // ---- Reading a reply -------------------------------------------------------

  /** What the client keeps of a reply: values by upper-case key, and bare tokens. */
  datatype Fields = Fields(values: map<string, string>, flags: seq<string>)

  function TakeField(f: Fields, raw: string): Fields {
    var token := Strip(raw);
    var i := IndexOf(token, '=');
    if token == "" then f
    else if i < |token| then f.(values := f.values[Upper(token[..i]) := token[i + 1..]])
    else f.(flags := f.flags + [Upper(token)])
  }

  function TakeFields(f: Fields, tokens: seq<string>): Fields
    decreases |tokens|
  {
    if tokens == [] then f else TakeFields(TakeField(f, tokens[0]), tokens[1..])
  }

  method ReadReply(resp: string) returns (fields: Fields)
    ensures fields == TakeFields(Fields(map["rawResponse" := resp], []), Tokens(Strip(resp)))
  {
    hide TakeField;
    fields := Fields(map["rawResponse" := resp], []);
    var tokens := Tokens(Strip(resp));
    assert tokens[0..] == tokens;
    for i := 0 to |tokens|
      invariant TakeFields(fields, tokens[i..]) == TakeFields(Fields(map["rawResponse" := resp], []), tokens)
    {
      assert tokens[i..][1..] == tokens[i + 1..];
      ghost var before := fields;
      fields := ReadToken(fields, tokens[i]);
    }
  }

  method ReadToken(fields: Fields, raw: string) returns (after: Fields)
    ensures after == TakeField(fields, raw)
  {
    var token := Strip(raw);
    if token == "" {
      return fields;
    }
    var i := IndexOf(token, '=');
    if i < |token| {
      return fields.(values := fields.values[Upper(token[..i]) := token[i + 1..]]);
    } else {
      return fields.(flags := fields.flags + [Upper(token)]);
    }
  }

  predicate Truth(value: string) {
    Strip(value) == "1" || Strip(value) == "true" || Strip(value) == "TRUE"
  }

  /** _extract_vehicle_state: lock and engine, where present. */
  function VehicleState(f: Fields): (Option<bool>, Option<bool>) {
    (if "LOCKED" in f.values then Some(Truth(f.values["LOCKED"])) else None,
     if "ENGINE" in f.values then Some(Truth(f.values["ENGINE"])) else None)
  }

  lemma FieldsNext(f: Fields, token: string, rest: seq<string>)
    ensures TakeFields(f, [token] + rest) == TakeFields(TakeField(f, token), rest)
  {
  }

  lemma TakePair(f: Fields, key: string, value: string)
    requires Tight(key) && '=' !in key && Tight(value)
    ensures TakeField(f, key + "=" + value) == f.(values := f.values[Upper(key) := value])
  {
    var token := key + "=" + value;
    StripNewline(token);
    IndexBefore(key, "=" + value);
    assert token == key + ("=" + value);
    assert token[..|key|] == key && token[|key| + 1..] == value;
  }

  lemma {:induction false} IndexBefore(a: string, b: string)
    requires '=' !in a && b != "" && b[0] == '='
    ensures IndexOf(a + b, '=') == |a|
  {
    if a == "" {
      assert a + b == b;
    } else {
      assert (a + b)[1..] == a[1..] + b;
      IndexBefore(a[1..], b);
    }
  }

  lemma DigitsAreTight(req: nat)
    ensures Tight(Dec(req)) && ';' !in Dec(req) && '=' !in Dec(req)
  {
  }

  lemma StateTokens(car: Car, req: nat)
    ensures var text := "OK;REQ=" + Dec(req) + StateText(car);
            && Tight(text)
            && Tokens(text) == ["OK", "REQ=" + Dec(req), "LOCKED=" + Bit(car.doorLocked), "ENGINE=" + Bit(car.engineOn)]
  {
    hide Dec, Tokens;
    DigitsAreTight(req);
    var second, third, last := "REQ=" + Dec(req), "LOCKED=" + Bit(car.doorLocked), "ENGINE=" + Bit(car.engineOn);
    var text := "OK;REQ=" + Dec(req) + StateText(car);
    assert text == "OK" + ";" + (second + ";" + (third + ";" + last));
    assert ';' !in third && ';' !in last && ';' !in second && ';' !in "OK";
    TokensOf("OK", second + ";" + (third + ";" + last));
    TokensOf(second, third + ";" + last);
    TokensOf(third, last);
    LastToken(last);
    assert text[0] == 'O' && text[|text| - 1] == last[|last| - 1];
  }

  lemma UpperKeys()
    ensures Upper("REQ") == "REQ" && Upper("LOCKED") == "LOCKED" && Upper("ENGINE") == "ENGINE" && Upper("OK") == "OK"
  {
  }

  lemma TakeFlag(f: Fields)
    ensures TakeField(f, "OK") == f.(flags := f.flags + ["OK"])
  {
    StripNewline("OK");
    NoEquals();
    UpperKeys();
  }

  lemma NoEquals()
    ensures IndexOf("OK", '=') == 2
  {
  }

  /** The values that count as true, with white space around them. */
  lemma TruthTexts(before: string, value: string, after: string)
    requires Tight(value) && forall i :: 0 <= i < |before| ==> IsSpace(before[i])
    requires forall i :: 0 <= i < |after| ==> IsSpace(after[i])
    ensures Truth(before + value + after) <==> value == "1" || value == "true" || value == "TRUE"
  {
    StripTight(before, value, after);
  }

  lemma BitIsTruth(b: bool)
    ensures Tight(Bit(b)) && (Truth(Bit(b)) <==> b)
  {
  }

  /** Reading the reply to GET_ALL gives back the lock and engine flags of the car. */
  lemma StateRecovered(car: Car, m: Message)
    requires Usable(m) && car.running && m.cmd == "GET_ALL"
    ensures var resp := Strip(Reply(car, m));
            VehicleState(TakeFields(Fields(map["rawResponse" := resp], []), Tokens(Strip(resp)))) ==
            (Some(car.doorLocked), Some(car.engineOn))
  {
    hide Dec, Tokens, Strip, StateText, TakeField, TakeFields, Upper, Truth, Bit, Reply;
    var text := "OK;REQ=" + Dec(m.req) + StateText(car);
    ReplyText(car, m);
    StateTokens(car, m.req);
    StripNewline(text);
    UpperKeys();
    assert "REQ" + "=" == "REQ=" && "LOCKED" + "=" == "LOCKED=" && "ENGINE" + "=" == "ENGINE=";
    DigitsAreTight(m.req);
    BitIsTruth(car.doorLocked);
    BitIsTruth(car.engineOn);
    var lock, engine := Bit(car.doorLocked), Bit(car.engineOn);
    var f0 := Fields(map["rawResponse" := text], []);
    var f1 := f0.(flags := f0.flags + ["OK"]);
    var f2 := f1.(values := f1.values["REQ" := Dec(m.req)]);
    var f3 := f2.(values := f2.values["LOCKED" := lock]);
    var f4 := f3.(values := f3.values["ENGINE" := engine]);
    TakeFlag(f0);
    TakePair(f1, "REQ", Dec(m.req));
    TakePair(f2, "LOCKED", lock);
    TakePair(f3, "ENGINE", engine);
    FourFields(f0, f1, f2, f3, f4, "OK", "REQ=" + Dec(m.req), "LOCKED=" + lock, "ENGINE=" + engine);
  }

  lemma ReplyText(car: Car, m: Message)
    ensures Usable(m) && car.running && m.cmd == "GET_ALL" ==>
              Reply(car, m) == "OK;REQ=" + Dec(m.req) + StateText(car) + "\n"
  {
  }

  lemma FourFields(f0: Fields, f1: Fields, f2: Fields, f3: Fields, f4: Fields,
                   a: string, b: string, c: string, d: string)
    requires TakeField(f0, a) == f1 && TakeField(f1, b) == f2 && TakeField(f2, c) == f3 && TakeField(f3, d) == f4
    ensures TakeFields(f0, [a, b, c, d]) == f4
  {
    hide TakeField;
    assert [a, b, c, d] == [a] + [b, c, d] && [b, c, d] == [b] + [c, d] && [c, d] == [c] + [d] && [d] == [d] + [];
    FieldsNext(f0, a, [b, c, d]);
    FieldsNext(f1, b, [c, d]);
    FieldsNext(f2, c, [d]);
    FieldsNext(f3, d, []);
    assert TakeFields(f4, []) == f4;
  }

  // ---- Whole runs of the server -----------------------------------------------

  /** The flags after any datagrams. */
  function Run(car: Car, datagrams: seq<string>): Car {
    if datagrams == [] then car
    else
      var n := |datagrams| - 1;
      var m, before := Parse(Received(datagrams[n])), Run(car, datagrams[..n]);
      if Usable(m) then Execute(before, m.cmd) else before
  }

  predicate Commands(datagram: string, cmd: string) {
    Usable(Parse(Received(datagram))) && Parse(Received(datagram)).cmd == cmd
  }

  /** Which of two opposite commands came last, if any came. */
  function Latest(datagrams: seq<string>, on: string, off: string): Option<bool> {
    if datagrams == [] then None
    else
      var n := |datagrams| - 1;
      if Commands(datagrams[n], on) then Some(true)
      else if Commands(datagrams[n], off) then Some(false)
      else Latest(datagrams[..n], on, off)
  }

  predicate NeitherFrom(datagrams: seq<string>, j: int, on: string, off: string) {
    forall k :: 0 <= j <= k < |datagrams| ==> !Commands(datagrams[k], on) && !Commands(datagrams[k], off)
  }

  lemma {:induction false} LatestMeans(datagrams: seq<string>, on: string, off: string) returns (j: nat)
    ensures match Latest(datagrams, on, off)
            case None => NeitherFrom(datagrams, 0, on, off)
            case Some(b) =>
              && j < |datagrams| && Commands(datagrams[j], if b then on else off)
              && NeitherFrom(datagrams, j + 1, on, off)
  {
    hide Commands;
    j := 0;
    if datagrams != [] {
      var n := |datagrams| - 1;
      if Commands(datagrams[n], on) || Commands(datagrams[n], off) {
        j := n;
      } else {
        j := LatestMeans(datagrams[..n], on, off);
        assert forall k :: 0 <= k < n ==> datagrams[..n][k] == datagrams[k];
      }
    }
  }

  /** After any datagrams the doors are as the last LOCK or UNLOCK left them and the engine
      as the last START or STOP did; malformed and unknown requests change nothing. */
  lemma {:induction false} LastCommandDecides(car: Car, datagrams: seq<string>)
    requires car.running
    ensures var r := Run(car, datagrams);
            var lock, engine := Latest(datagrams, "LOCK", "UNLOCK"), Latest(datagrams, "START", "STOP");
            && r.running
            && r.doorLocked == (if lock.Some? then lock.value else car.doorLocked)
            && r.engineOn == (if engine.Some? then engine.value else car.engineOn)
  {
    hide Parse, Received, Execute;
    if datagrams != [] {
      var n := |datagrams| - 1;
      LastCommandDecides(car, datagrams[..n]);
      Executed(Run(car, datagrams[..n]), Parse(Received(datagrams[n])).cmd);
    }
  }

  lemma Executed(car: Car, cmd: string)
    requires car.running
    ensures var r := Execute(car, cmd);
            && r.running
            && r.doorLocked == (if cmd == "LOCK" then true else if cmd == "UNLOCK" then false else car.doorLocked)
            && r.engineOn == (if cmd == "START" then true else if cmd == "STOP" then false else car.engineOn)
  {
  }

  /** What the client learns from a reply. */
  function Learnt(reply: string): (Option<bool>, Option<bool>) {
    var resp := Strip(reply);
    VehicleState(TakeFields(Fields(map["rawResponse" := resp], []), Tokens(Strip(resp))))
  }

  /** Through printer, parser, server, reply and token loop: after any datagrams, a GET_ALL
      request succeeds and tells the client the outcome of the last lock and engine
      commands. */
  lemma QueryReportsLatest(car: Car, datagrams: seq<string>, req: nat, src: string)
    requires car.running && ';' !in src && (src == "" || !IsLineEnd(src[|src| - 1])) && req <= MAX_U64
    requires |Line("GET_ALL", req, src)| <= 255
    ensures var lock, engine := Latest(datagrams, "LOCK", "UNLOCK"), Latest(datagrams, "START", "STOP");
            var reply := Reply(Run(car, datagrams), Parse(Received(Line("GET_ALL", req, src))));
            && ClientAccepts(req, reply)
            && Learnt(reply) == (Some(if lock.Some? then lock.value else car.doorLocked),
                                 Some(if engine.Some? then engine.value else car.engineOn))
  {
    hide Parse, Reply, ClientAccepts, Line, Upper, Run, Latest, VehicleState, TakeFields, Strip;
    var server, m := Run(car, datagrams), Parse(Received(Line("GET_ALL", req, src)));
    LastCommandDecides(car, datagrams);
    UpperGetAll();
    Exchange(server, "GET_ALL", req, src);
    RoundTripExactly("GET_ALL", req, src);
    StateRecovered(server, m);
  }

  lemma UpperGetAll()
    ensures Upper("GET_ALL") == "GET_ALL" && ';' !in "GET_ALL"
  {
  }
}
