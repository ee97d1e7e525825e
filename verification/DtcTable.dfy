/** The diagnostic trouble codes the ECU stores, the 0x19 response it builds from
    them and the list the tester decodes (section 11.3 of ISO 14229-1). */
module DtcTable {
  import opened IsoTp
  import opened MachineTypes

  const MAX_DTC_COUNT: nat := 16
  const PENDING: u8 := 0x01
  const CONFIRMED: u8 := 0x40

  datatype Entry = Entry(dtcCode: u32, status: u8, detectCnt: u8)

  const CLEARED: Entry := Entry(0, 0, 0)

  // ---- What the table holds ------------------------------------------------

  /** The different codes of a history in the order of their first report. */
  function Distinct(history: seq<u32>): seq<u32> {
    if history == [] then []
    else
      var earlier, code := Distinct(history[..|history| - 1]), history[|history| - 1];
      if code in earlier then earlier else earlier + [code]
  }

  function Occurrences(history: seq<u32>, code: u32): nat {
    multiset(history)[code]
  }

  /** What k > 0 reports make of an entry: an 8-bit counter; Pending exactly when the
      counter stands at one, Confirmed otherwise. */
  function Stored(code: u32, k: nat): Entry {
    Entry(code, if k % 0x100 == 1 then PENDING else CONFIRMED, k % 0x100)
  }

  function Kept(codes: seq<u32>): seq<u32> {
    codes[..Min(MAX_DTC_COUNT, |codes|)]
  }

  /** The table that belongs to a history: the first sixteen different codes, each with
      its number of reports. */
  function TableOf(history: seq<u32>): seq<Entry> {
    Entries(Kept(Distinct(history)), history)
  }

  function Entries(codes: seq<u32>, history: seq<u32>): seq<Entry> {
    seq(|codes|, i requires 0 <= i < |codes| => Stored(codes[i], Occurrences(history, codes[i])))
  }

  lemma {:induction false} DistinctExactly(history: seq<u32>)
    ensures forall i, j :: 0 <= i < j < |Distinct(history)| ==> Distinct(history)[i] != Distinct(history)[j]
    ensures forall code :: code in Distinct(history) <==> code in history
  {
    if history != [] {
      DistinctExactly(history[..|history| - 1]);
      assert history == history[..|history| - 1] + [history[|history| - 1]];
    }
  }

  /** Reading an entry of the table: sixteen at most, different codes, and status and
      counter as a function of the number of reports. */
  lemma TableMeaning(history: seq<u32>, i: nat)
    requires i < |TableOf(history)|
    ensures var e := TableOf(history)[i];
            var k := Occurrences(history, e.dtcCode);
            && e.dtcCode in history && k > 0
            && e.detectCnt == k % 0x100
            && (e.status == PENDING <==> k % 0x100 == 1) && (e.status == CONFIRMED <==> k % 0x100 != 1)
            && (forall j :: 0 <= j < i ==> TableOf(history)[j].dtcCode != e.dtcCode)
            && |TableOf(history)| <= MAX_DTC_COUNT
  {
    DistinctExactly(history);
    TableCodes(history);
    hide Distinct, TableOf;
    assert TableOf(history)[i].dtcCode == Distinct(history)[i];
  }

  function CodesOf(history: seq<u32>): set<u32> {
    set code | code in history
  }

  /** The table in numbers: a code that is new when i other codes have been reported has
      place i if i is below sixteen and no place otherwise; its counter is the number of
      its reports modulo 256, its status 0x01 when the counter is one and 0x40 otherwise. */
  lemma PlaceOf(history: seq<u32>, k: nat)
    requires k < |history| && history[k] !in history[..k]
    ensures |TableOf(history)| == Min(16, |CodesOf(history)|)
    ensures var i, n := |CodesOf(history[..k])|, multiset(history)[history[k]];
            if i < 16 then
              i < |TableOf(history)| &&
              TableOf(history)[i] == Entry(history[k], if n % 256 == 1 then 0x01 else 0x40, n % 256)
            else forall j :: 0 <= j < |TableOf(history)| ==> TableOf(history)[j].dtcCode != history[k]
  {
    TableCodes(history);
    DistinctExactly(history);
    AsMany(history);
    AsMany(history[..k]);
    PlaceInDistinct(history, k);
    hide Distinct, TableOf, Occurrences;
  }

  lemma {:induction false} AsMany(history: seq<u32>)
    ensures |CodesOf(history)| == |Distinct(history)|
  {
    if history != [] {
      var init, code := history[..|history| - 1], history[|history| - 1];
      AsMany(init);
      DistinctExactly(init);
      assert CodesOf(history) == CodesOf(init) + {code};
    }
  }

  lemma {:induction false} PlaceInDistinct(history: seq<u32>, k: nat)
    requires k < |history| && history[k] !in history[..k]
    ensures |Distinct(history[..k])| < |Distinct(history)|
    ensures Distinct(history)[|Distinct(history[..k])|] == history[k]
  {
    var n := |history| - 1;
    if k == n {
      DistinctExactly(history[..n]);
    } else {
      assert history[..n][..k] == history[..k];
      PlaceInDistinct(history[..n], k);
    }
  }

  // ---- DTC_Report and DTC_Clear --------------------------------------------

  function Bump(e: Entry): Entry {
    if e.detectCnt == 0 then e.(detectCnt := 1, status := PENDING)
    else e.(detectCnt := (e.detectCnt + 1 - if e.detectCnt == 0xff then 0x100 else 0), status := CONFIRMED)
  }

  predicate Lacks(table: seq<Entry>, code: u32) {
    forall i :: 0 <= i < |table| ==> table[i].dtcCode != code
  }

  /** What one report does to a table: the first entry with the code is bumped; a new
      code is appended if there is room and dropped otherwise. */
  ghost predicate Reported(table: seq<Entry>, code: u32, next: seq<Entry>) {
    if Lacks(table, code) then
      next == if |table| < MAX_DTC_COUNT then table + [Entry(code, PENDING, 1)] else table
    else
      exists i :: 0 <= i < |table| && table[i].dtcCode == code && Lacks(table[..i], code) &&
                  next == table[i := Bump(table[i])]
  }

  /** g_dtcList and g_dtcCount. `history` lists the reports since the last clear; the
      table is always the one that belongs to it. */
  class Table {
    var list: array<Entry>
    var count: nat
    ghost var history: seq<u32>

    ghost predicate Bounds()
      reads this
    {
      list.Length == MAX_DTC_COUNT && count <= MAX_DTC_COUNT
    }

    ghost function Contents(): seq<Entry>
      requires Bounds()
      reads this, list
    {
      list[..count]
    }

    ghost predicate Valid()
      reads this, list
    {
      Bounds() && Contents() == TableOf(history)
    }

    constructor ()
      ensures Valid() && fresh(list) && history == []
    {
      list := new Entry[MAX_DTC_COUNT](_ => CLEARED);
      count, history := 0, [];
    }

    method DtcReport(code: u32)
      requires Valid()
      modifies this`count, this`history, list
      ensures Valid() && list == old(list)
      ensures history == old(history) + [code]
    {
      hide TableOf, Bump;
      history := history + [code];
      for i := 0 to count
        invariant list[..] == old(list[..])
        invariant Lacks(Contents()[..i], code)
      {
        if list[i].dtcCode == code {
          list[i] := Bump(list[i]);
          assert Contents() == old(Contents())[i := Bump(old(Contents())[i])];
          ReportExtends(old(history), code, Contents());
          return;
        }
      }
      if count < MAX_DTC_COUNT {
        list[count] := Entry(code, PENDING, 1);
        count := count + 1;
        assert Contents() == old(Contents()) + [Entry(code, PENDING, 1)];
      }
      ReportExtends(old(history), code, Contents());
    }

    method DtcClear()
      requires Bounds()
      modifies this`count, this`history, list
      ensures Valid() && list == old(list)
      ensures history == [] && forall i :: 0 <= i < list.Length ==> list[i] == Entry(0, 0, 0)
    {
      for i := 0 to list.Length
        invariant forall j :: 0 <= j < i ==> list[j] == Entry(0, 0, 0)
      {
        list[i] := CLEARED;
      }
      count, history := 0, [];
    }
  }

  /** A report leads from the table of a history to the table of the longer history. */
  lemma ReportExtends(history: seq<u32>, code: u32, next: seq<Entry>)
    requires Reported(TableOf(history), code, next)
    ensures next == TableOf(history + [code])
  {
    hide Distinct, Stored, Bump, Occurrences, Kept, Entries;
    var codes := Distinct(history);
    TableCodes(history);
    DistinctExactly(history);
    forall c { OneMore(history, code, c); }
    DistinctExtends(history, code);
    if Lacks(TableOf(history), code) && |TableOf(history)| < MAX_DTC_COUNT {
      LackedIsNew(history, code);
      NewEntry(history, code);
    } else if Lacks(TableOf(history), code) {
      DroppedEntry(history, code);
    } else {
      var i :| 0 <= i < |TableOf(history)| && TableOf(history)[i].dtcCode == code &&
               next == TableOf(history)[i := Bump(TableOf(history)[i])];
      KnownEntry(history, code, i);
    }
  }

  lemma TableCodes(history: seq<u32>)
    ensures |TableOf(history)| == Min(MAX_DTC_COUNT, |Distinct(history)|)
    ensures forall i :: 0 <= i < |TableOf(history)| ==>
              TableOf(history)[i] == Stored(Distinct(history)[i], Occurrences(history, Distinct(history)[i]))
    ensures forall i :: 0 <= i < |TableOf(history)| ==> TableOf(history)[i].dtcCode == Distinct(history)[i]
  {
  }

  lemma OneMore(history: seq<u32>, code: u32, c: u32)
    ensures Occurrences(history + [code], c) == Occurrences(history, c) + if c == code then 1 else 0
    ensures c in history <==> Occurrences(history, c) > 0
  {
  }

  lemma DistinctExtends(history: seq<u32>, code: u32)
    ensures Distinct(history + [code]) == if code in history then Distinct(history) else Distinct(history) + [code]
  {
    assert (history + [code])[..|history|] == history;
    DistinctExactly(history);
  }

  lemma NewEntry(history: seq<u32>, code: u32)
    requires code !in history && |Distinct(history)| < MAX_DTC_COUNT
    ensures TableOf(history + [code]) == TableOf(history) + [Entry(code, PENDING, 1)]
  {
    hide Distinct, Occurrences;
    DistinctExactly(history);
    DistinctExtends(history, code);
    OneMore(history, code, code);
    forall c | c in Distinct(history) { OneMore(history, code, c); }
  }

  lemma DroppedEntry(history: seq<u32>, code: u32)
    requires Lacks(TableOf(history), code) && |TableOf(history)| >= MAX_DTC_COUNT
    ensures TableOf(history + [code]) == TableOf(history)
  {
  }

  lemma KnownEntry(history: seq<u32>, code: u32, i: nat)
    requires i < |TableOf(history)| && TableOf(history)[i].dtcCode == code
    ensures TableOf(history + [code]) == TableOf(history)[i := Bump(TableOf(history)[i])]
  {
    TableCodes(history);
    TableCodes(history + [code]);
    hide Distinct, Occurrences, Stored, Bump, TableOf;
    DistinctExactly(history);
    DistinctExtends(history, code);
    assert Distinct(history)[i] == code && code in Distinct(history);
    OneMore(history, code, code);
    BumpCounts(code, Occurrences(history, code));
    forall c { OneMore(history, code, c); }
  }

  lemma LackedIsNew(history: seq<u32>, code: u32)
    requires Lacks(TableOf(history), code) && |Distinct(history)| < MAX_DTC_COUNT
    ensures code !in history
  {
    DistinctExactly(history);
    forall i | 0 <= i < |Distinct(history)|
      ensures Distinct(history)[i] != code
    {
      assert TableOf(history)[i].dtcCode == Distinct(history)[i];
    }
  }

  lemma BumpCounts(code: u32, k: nat)
    requires k > 0
    ensures Bump(Stored(code, k)) == Stored(code, k + 1)
  {
  }

  // ---- The 0x19 response ---------------------------------------------------

  const POSITIVE_19: u8 := 0x59

  function EncodeEntry(e: Entry): seq<u8> {
    [(e.dtcCode / 0x1_0000) % 0x100, (e.dtcCode / 0x100) % 0x100, e.dtcCode % 0x100, e.status]
  }

  /** Service, sub-function 0x02, availability mask, then four octets per entry. */
  function EncodeTable(table: seq<Entry>): seq<u8> {
    if table == [] then [POSITIVE_19, 0x02, 0xff]
    else EncodeTable(table[..|table| - 1]) + EncodeEntry(table[|table| - 1])
  }

  /** The 0x19 branch of Can_RxIsrHandler up to Can_TpSend. */
  method ReadDtcResponse(table: Table) returns (txBuf: seq<u8>)
    requires table.Valid()
    ensures txBuf == EncodeTable(TableOf(table.history))
  {
    txBuf := [0x59, 0x02, 0xff];
    ghost var contents := table.Contents();
    for i := 0 to table.count
      invariant txBuf == EncodeTable(contents[..i])
    {
      assert contents[..i + 1][..i] == contents[..i];
      txBuf := txBuf + EncodeEntry(table.list[i]);
    }
    assert contents[..|contents|] == contents;
  }

  datatype Decoded = TooShort | NotRecognized | Dtcs(dtcs: seq<(int, u8)>)

  /** The read-DTC branch of parse_uds_response: fewer than two octets after the
      sub-function mean no trouble codes. */
  method DecodeDtc(payload: seq<u8>) returns (r: Decoded)
    ensures r == DecodedFrom(payload)
    ensures r.TooShort? <==> |payload| < 2
    ensures r.NotRecognized? <==> 4 <= |payload| <= 6
    ensures r.Dtcs? ==>
              && |r.dtcs| == (if |payload| < 7 then 0 else (|payload| - 3) / 4)
              && forall i :: 0 <= i < |r.dtcs| ==>
                   && 3 + 4 * i + 3 < |payload|
                   && r.dtcs[i].0 == 65536 * (payload[3 + 4 * i] as int) + 256 * (payload[4 + 4 * i] as int)
                                     + payload[5 + 4 * i]
                   && r.dtcs[i].1 == payload[6 + 4 * i]
  {
    if |payload| < 2 {
      return TooShort;
    }
    var data := payload[2..];
    var dataLen := |data|;
    if dataLen <= 1 {
      return Dtcs([]);
    }
    if dataLen >= 5 {
      var dtcs: seq<(int, u8)> := [];
      var off := 1;
      while off + 3 < dataLen
        invariant off == 1 + 4 * |dtcs| && off <= dataLen
        invariant forall i :: 0 <= i < |dtcs| ==> dtcs[i] == EntryAt(data, i)
        decreases dataLen - off
      {
        var code := 0x1_0000 * (data[off] as int) + 0x100 * (data[off + 1] as int) + data[off + 2];
        dtcs := dtcs + [(code, data[off + 3])];
        off := off + 4;
      }
      assert |dtcs| == (dataLen - 1) / 4;
      return Dtcs(dtcs);
    }
    return NotRecognized;
  }

  function EntryAt(data: seq<u8>, i: nat): (int, u8)
    requires 4 * i + 4 < |data|
  {
    (0x1_0000 * (data[4 * i + 1] as int) + 0x100 * (data[4 * i + 2] as int) + data[4 * i + 3], data[4 * i + 4])
  }

  function DecodedFrom(payload: seq<u8>): Decoded {
    if |payload| < 2 then TooShort
    else if |payload| <= 3 then Dtcs([])
    else if |payload| < 7 then NotRecognized
    else Dtcs(seq((|payload| - 3) / 4, i requires 0 <= i < (|payload| - 3) / 4 => EntryAt(payload[2..], i)))
  }

  /** What the tester should show: code and status of every entry, in table order. */
  function Listing(table: seq<Entry>): seq<(int, u8)> {
    seq(|table|, i requires 0 <= i < |table| => (table[i].dtcCode % 0x100_0000, table[i].status))
  }

  lemma {:induction false} EncodedAt(table: seq<Entry>)
    ensures |EncodeTable(table)| == 3 + 4 * |table|
    ensures EncodeTable(table)[0] == POSITIVE_19
    ensures forall i :: 0 <= i < |table| ==> EncodeTable(table)[3 + 4 * i..7 + 4 * i] == EncodeEntry(table[i])
  {
    if table != [] {
      var init := table[..|table| - 1];
      EncodedAt(init);
      hide EncodeEntry;
      forall i | 0 <= i < |init|
        ensures EncodeTable(table)[3 + 4 * i..7 + 4 * i] == EncodeEntry(table[i])
      {
        assert EncodeTable(table)[3 + 4 * i..7 + 4 * i] == EncodeTable(init)[3 + 4 * i..7 + 4 * i];
        assert init[i] == table[i];
      }
    }
  }

  lemma EntryRoundTrip(data: seq<u8>, i: nat, e: Entry)
    requires 4 * i + 4 < |data| && data[4 * i + 1..4 * i + 5] == EncodeEntry(e)
    ensures EntryAt(data, i) == (e.dtcCode % 0x100_0000, e.status)
  {
    var d := data[4 * i + 1..4 * i + 5];
    assert data[4 * i + 1] == d[0] && data[4 * i + 2] == d[1] && data[4 * i + 3] == d[2] && data[4 * i + 4] == d[3];
    Bytes(e.dtcCode);
  }

  lemma Bytes(x: u32)
    ensures 0x1_0000 * ((x / 0x1_0000) % 0x100) + 0x100 * ((x / 0x100) % 0x100) + x % 0x100 == x % 0x100_0000
  {
    var a, b, c := x % 0x100, (x / 0x100) % 0x100, x / 0x1_0000;
    assert x / 0x100 == 0x100 * c + b;
    Remainder24(x, c / 0x100, 0x1_0000 * (c % 0x100) + 0x100 * b + a);
  }

  lemma Remainder24(x: nat, q: nat, r: nat)
    requires x == 0x100_0000 * q + r && r < 0x100_0000
    ensures x % 0x100_0000 == r
  {
  }

  /** Decoding undoes encoding, the codes being cut to 24 bits. */
  lemma DecodeEncode(table: seq<Entry>)
    ensures DecodedFrom(EncodeTable(table)) == Dtcs(Listing(table))
  {
    EncodedAt(table);
    hide EncodeTable, EncodeEntry;
    var payload := EncodeTable(table);
    if table != [] {
      var data := payload[2..];
      forall i | 0 <= i < |table|
        ensures EntryAt(data, i) == Listing(table)[i]
      {
        assert data[4 * i + 1..4 * i + 5] == payload[3 + 4 * i..7 + 4 * i];
        EntryRoundTrip(data, i, table[i]);
      }
      assert DecodedFrom(payload).dtcs == Listing(table);
    } else {
      assert Listing(table) == [];
    }
  }

  /** The response in numbers: 0x59 0x02 0xff, then per entry the three lower octets of
      the code, highest first, and the status. */
  lemma ResponseFormat(table: seq<Entry>)
    ensures var p := EncodeTable(table);
            && |p| == 3 + 4 * |table| && p[..3] == [0x59, 0x02, 0xff]
            && forall i :: 0 <= i < |table| ==>
                 && 65536 * (p[3 + 4 * i] as int) + 256 * (p[4 + 4 * i] as int) + p[5 + 4 * i]
                      == table[i].dtcCode % 16777216
                 && p[6 + 4 * i] == table[i].status
  {
    var p := EncodeTable(table);
    EncodedAt(table);
    HeaderStays(table);
    hide EncodeTable, EncodeEntry;
    forall i | 0 <= i < |table|
      ensures 65536 * (p[3 + 4 * i] as int) + 256 * (p[4 + 4 * i] as int) + p[5 + 4 * i]
           == table[i].dtcCode % 16777216 && p[6 + 4 * i] == table[i].status
    {
      assert p[2..][4 * i + 1..4 * i + 5] == p[3 + 4 * i..7 + 4 * i];
      EntryRoundTrip(p[2..], i, table[i]);
    }
  }

  lemma {:induction false} HeaderStays(table: seq<Entry>)
    ensures |EncodeTable(table)| >= 3 && EncodeTable(table)[..3] == [0x59, 0x02, 0xff]
  {
    if table != [] {
      HeaderStays(table[..|table| - 1]);
    }
  }

  /** End to end: whatever was reported, the tester lists exactly the ECU's table after
      segmentation, flow control traffic and reassembly. */
  lemma ReadDtcEndToEnd(history: seq<u32>, frames: seq<Frame>)
    requires DropFlow(frames) == Segment(EncodeTable(TableOf(history)))
    ensures DecodedFrom(CollectAll(frames, POSITIVE_19).payload) == Dtcs(Listing(TableOf(history)))
    ensures |TableOf(history)| <= MAX_DTC_COUNT
  {
    var table := TableOf(history);
    var payload := EncodeTable(table);
    DecodeEncode(table);
    EncodedAt(table);
    TableCodes(history);
    hide CollectAll, DropFlow, Segment, EncodeTable, DecodedFrom, TableOf;
    if |payload| >= 8 {
      RoundTrip(payload, frames, POSITIVE_19);
    } else {
      RoundTripSingle(payload, frames, POSITIVE_19);
    }
  }
}
