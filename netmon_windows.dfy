/** netmon_windows.go: the connection states, the MIB_TCPTABLE_OWNER_PID
    layout, and EnumTcpPorts, which asks GetExtendedTcpTable for the table
    size, fetches the table into a buffer of that size, decodes its rows and
    reports those that pass the state filter and whose owner has a name. */
module NetmonWindows {
  import opened Binary
  import opened Seqs
  import opened Api
  import opened Netmon
  import opened Proc

  // MIB_TCP_STATE values; NONE means "no state filter".
  const NONE: uint32 := 0
  const CLOSED: uint32 := 1
  const LISTENING: uint32 := 2
  const SYN_SENT: uint32 := 3
  const SYN_RCVD: uint32 := 4
  const ESTABLISHED: uint32 := 5
  const FIN_WAIT1: uint32 := 6
  const FIN_WAIT2: uint32 := 7
  const CLOSE_WAIT: uint32 := 8
  const CLOSING: uint32 := 9
  const LAST_ACK: uint32 := 10
  const TIME_WAIT: uint32 := 11
  const DELETE_TCB: uint32 := 12

  /** TCP_TABLE_OWNER_PID_ALL, the sixth TCP_TABLE_CLASS value. */
  const TCP_TABLE_OWNER_PID_ALL: uintptr := 5
  const AF_INET: uintptr := 2

  /** The table starts with the DWORD dwNumEntries; each row is six DWORDs. */
  const TABLE_HEADER_SIZE: nat := 4
  const ROW_SIZE: nat := 24

  /** Where row i of the table starts. */
  function RowOffset(i: nat): nat {
    TABLE_HEADER_SIZE + ROW_SIZE * i
  }

  /** MIB_TCPROW_OWNER_PID. */
  datatype TcpRow = TcpRow(
    state: uint32,
    localAddr: uint32,
    localPort: uint32,
    remoteAddr: uint32,
    remotePort: uint32,
    owningPid: uint32)

  /** The row stored at `buf[off..off + 24]`: six little-endian DWORDs in field order. */
  function DecodeRow(buf: seq<uint8>, off: nat): TcpRow
    requires off + ROW_SIZE <= |buf|
  {
    TcpRow(
      Uint32At(buf, off), Uint32At(buf, off + 4), Uint32At(buf, off + 8),
      Uint32At(buf, off + 12), Uint32At(buf, off + 16), Uint32At(buf, off + 20))
  }

  datatype TableResult = Table(rows: seq<TcpRow>) | MalformedTable

  /** The rows of a MIB_TCPTABLE_OWNER_PID held in `buf`: row i starts at
      4 + 24 * i. A buffer shorter than the header, or too short for the
      count the header gives, is malformed. */
  function DecodeTable(buf: seq<uint8>): (t: TableResult)
    ensures t.Table? <==> |buf| >= TABLE_HEADER_SIZE && TABLE_HEADER_SIZE + ROW_SIZE * Uint32At(buf, 0) <= |buf|
    ensures t.Table? ==> |t.rows| == Uint32At(buf, 0)
    ensures t.Table? ==> forall i :: 0 <= i < |t.rows| ==>
      RowOffset(i) + ROW_SIZE <= |buf| && t.rows[i] == DecodeRow(buf, RowOffset(i))
  {
    if |buf| < TABLE_HEADER_SIZE then MalformedTable
    else
      var n := Uint32At(buf, 0);
      if TABLE_HEADER_SIZE + ROW_SIZE * n > |buf| then MalformedTable
      else Table(seq(n, i requires 0 <= i < n => DecodeRow(buf, RowOffset(i))))
  }

  // ---------------------------------------------------------------------------
  // The layout, written out: encoding and decoding are inverse.

  function EncodeRow(row: TcpRow): (b: seq<uint8>)
    ensures |b| == ROW_SIZE
  {
    LittleEndianPutUint32(row.state) + LittleEndianPutUint32(row.localAddr) +
    LittleEndianPutUint32(row.localPort) + LittleEndianPutUint32(row.remoteAddr) +
    LittleEndianPutUint32(row.remotePort) + LittleEndianPutUint32(row.owningPid)
  }

  function EncodeRows(rows: seq<TcpRow>): (b: seq<uint8>)
    ensures |b| == ROW_SIZE * |rows|
  {
    if rows == [] then [] else EncodeRow(rows[0]) + EncodeRows(rows[1..])
  }

  function EncodeTable(rows: seq<TcpRow>): seq<uint8>
    requires |rows| < 0x1_0000_0000
  {
    LittleEndianPutUint32(|rows|) + EncodeRows(rows)
  }

  lemma DWordAt(buf: seq<uint8>, off: nat, v: uint32)
    requires off + 4 <= |buf| && buf[off..off + 4] == LittleEndianPutUint32(v)
    ensures Uint32At(buf, off) == v
  {
    Uint32AtSlice(buf, off);
    Uint32OfPutUint32(v);
  }

  /** Field k of a row occupies bytes 4 * k .. 4 * k + 4 of the row. */
  lemma FieldAt(buf: seq<uint8>, off: nat, k: nat, e: seq<uint8>, v: uint32)
    requires off + ROW_SIZE <= |buf| && buf[off..off + ROW_SIZE] == e && k < 6
    requires e[4 * k..4 * k + 4] == LittleEndianPutUint32(v)
    ensures Uint32At(buf, off + 4 * k) == v
  {
    forall j | 4 * k <= j < 4 * k + 4 ensures buf[off + j] == e[j] {
      assert buf[off..off + ROW_SIZE][j] == buf[off + j];
    }
    Uint32AtSlice(e, 4 * k);
    Uint32OfPutUint32(v);
  }

  /** Decoding the bytes of an encoded row gives the row back. */
  lemma DecodeEncodedRow(buf: seq<uint8>, off: nat, row: TcpRow)
    requires off + ROW_SIZE <= |buf| && buf[off..off + ROW_SIZE] == EncodeRow(row)
    ensures DecodeRow(buf, off) == row
  {
    var e := EncodeRow(row);
    var p0, p1, p2 := LittleEndianPutUint32(row.state), LittleEndianPutUint32(row.localAddr), LittleEndianPutUint32(row.localPort);
    var p3, p4, p5 := LittleEndianPutUint32(row.remoteAddr), LittleEndianPutUint32(row.remotePort), LittleEndianPutUint32(row.owningPid);
    assert e == p0 + p1 + p2 + p3 + p4 + p5;
    assert e[0..4] == p0;
    assert e[4..8] == p1;
    assert e[8..12] == p2;
    assert e[12..16] == p3;
    assert e[16..20] == p4;
    assert e[20..24] == p5;
    FieldAt(buf, off, 0, e, row.state);
    FieldAt(buf, off, 1, e, row.localAddr);
    FieldAt(buf, off, 2, e, row.localPort);
    FieldAt(buf, off, 3, e, row.remoteAddr);
    FieldAt(buf, off, 4, e, row.remotePort);
    FieldAt(buf, off, 5, e, row.owningPid);
  }

  /** The encoding of a non-empty table body starts with its first row, then the rest. */
  lemma EncodeRowsCons(rows: seq<TcpRow>)
    requires rows != []
    ensures EncodeRows(rows)[..ROW_SIZE] == EncodeRow(rows[0])
    ensures EncodeRows(rows)[ROW_SIZE..] == EncodeRows(rows[1..])
  {
    assert EncodeRows(rows) == EncodeRow(rows[0]) + EncodeRows(rows[1..]);
  }

  /** Row i of the encoding occupies bytes 24 * i .. 24 * i + 24. */
  lemma {:induction false} EncodeRowsAt(rows: seq<TcpRow>, i: nat)
    requires i < |rows|
    ensures EncodeRows(rows)[ROW_SIZE * i..ROW_SIZE * i + ROW_SIZE] == EncodeRow(rows[i])
  {
    EncodeRowsCons(rows);
    if i > 0 {
      var b, rest := EncodeRows(rows), EncodeRows(rows[1..]);
      EncodeRowsAt(rows[1..], i - 1);
      assert b[ROW_SIZE * i..ROW_SIZE * i + ROW_SIZE] == b[ROW_SIZE..][ROW_SIZE * (i - 1)..ROW_SIZE * (i - 1) + ROW_SIZE];
      assert rows[1..][i - 1] == rows[i];
    }
  }

  lemma EncodedHeader(rows: seq<TcpRow>)
    requires |rows| < 0x1_0000_0000
    ensures |EncodeTable(rows)| == TABLE_HEADER_SIZE + ROW_SIZE * |rows|
    ensures Uint32At(EncodeTable(rows), 0) == |rows|
  {
    var buf := EncodeTable(rows);
    assert buf[..4] == LittleEndianPutUint32(|rows|);
    DWordAt(buf, 0, |rows|);
  }

  lemma EncodedRowAt(rows: seq<TcpRow>, i: nat)
    requires i < |rows| < 0x1_0000_0000
    ensures RowOffset(i) + ROW_SIZE <= |EncodeTable(rows)|
    ensures DecodeRow(EncodeTable(rows), RowOffset(i)) == rows[i]
  {
    var buf := EncodeTable(rows);
    var body := EncodeRows(rows);
    var off := RowOffset(i);
    EncodeRowsAt(rows, i);
    assert buf[off..off + ROW_SIZE] == body[ROW_SIZE * i..ROW_SIZE * i + ROW_SIZE];
    DecodeEncodedRow(buf, off, rows[i]);
  }

  /** Decoding an encoded table gives back exactly its rows. */
  lemma DecodeEncodedTable(rows: seq<TcpRow>)
    requires |rows| < 0x1_0000_0000
    ensures DecodeTable(EncodeTable(rows)) == Table(rows)
  {
    EncodedHeader(rows);
    var t := DecodeTable(EncodeTable(rows));
    forall i | 0 <= i < |rows| ensures t.rows[i] == rows[i] {
      EncodedRowAt(rows, i);
    }
  }

  /** The row extents the code as written reads: a slice of dwNumEntries rows
      laid over the buffer whatever its length. */
  function RowSpansAsWritten(numEntries: uint32): (spans: seq<(nat, nat)>)
    ensures |spans| == numEntries
  {
    seq(numEntries, i requires 0 <= i < numEntries => (RowOffset(i), RowOffset(i) + ROW_SIZE))
  }

  /** A 4-byte table whose header claims one row: the unchecked slice reads 24
      bytes past the end, while the checked decoding rejects the table. */
  lemma UncheckedCountOverruns()
    ensures var buf: seq<uint8> := [1, 0, 0, 0];
      && RowSpansAsWritten(Uint32At(buf, 0))[0].1 > |buf|
      && DecodeTable(buf) == MalformedTable
  {
  }

  // ---------------------------------------------------------------------------
  // EnumTcpPorts

  /** The size probe: no buffer, *pdwSize = 0, sorted, IPv4, owner PID, all states. */
  const PROBE_REQUEST: TcpTableRequest := TcpTableRequest(false, 0, true, AF_INET, TCP_TABLE_OWNER_PID_ALL)

  function FetchRequest(size: uint32): TcpTableRequest {
    TcpTableRequest(true, size, true, AF_INET, TCP_TABLE_OWNER_PID_ALL)
  }

  function Probe(os: Win32): TcpTableReply {
    os.getExtendedTcpTable(PROBE_REQUEST)
  }

  function Fetch(os: Win32): TcpTableReply {
    os.getExtendedTcpTable(FetchRequest(Probe(os).size))
  }

  /** The probe failed: doCall reported it not ok. */
  predicate ProbeFailed(os: Win32) {
    !DoCall(Probe(os).call).ok
  }

  /** The fetch failed: not ok, or a nonzero status. */
  predicate FetchFailed(os: Win32) {
    var r := DoCall(Fetch(os).call);
    !r.ok || r.retval != 0
  }

  /** The bytes of the table buffer after the fetch. */
  function TableBytes(os: Win32): seq<uint8> {
    Filled(Fetch(os).written, Probe(os).size)
  }

  /** The rows obtained by the two-phase query, or None when a call failed or the table is malformed. */
  function FetchedRows(os: Win32): (rows: Option<seq<TcpRow>>)
    ensures rows.Some? <==> !ProbeFailed(os) && !FetchFailed(os) && DecodeTable(TableBytes(os)).Table?
    ensures rows.Some? ==> rows.value == DecodeTable(TableBytes(os)).rows
  {
    if ProbeFailed(os) || FetchFailed(os) then None
    else match DecodeTable(TableBytes(os))
      case MalformedTable => None
      case Table(rows) => Some(rows)
  }

  /** A row passes when the state filter admits it and its owner resolves to a non-empty name. */
  predicate Passes(os: Win32, portState: uint32, row: TcpRow) {
    && (portState == NONE || row.state == portState)
    && ResolveName(os, row.owningPid).1
    && ResolveName(os, row.owningPid).0 != ""
  }

  /** The record reported for a passing row. */
  predicate Describes(os: Win32, row: TcpRow, info: NetPortInfo) {
    && info.name == ResolveName(os, row.owningPid).0
    && info.pid == row.owningPid
    && info.localIP == TranslateIP(row.localAddr)
    && info.localPort == FetchBigEndianUint16(row.localPort)
    && info.remoteIP == TranslateIP(row.remoteAddr)
    && info.remotePort == FetchBigEndianUint16(row.remotePort)
  }

  /** The record built for a row whose owner is named `name`. */
  function Record(name: string, row: TcpRow): NetPortInfo {
    NetPortInfo(name, row.owningPid,
      TranslateIP(row.localAddr), FetchBigEndianUint16(row.localPort),
      TranslateIP(row.remoteAddr), FetchBigEndianUint16(row.remotePort))
  }

  /** One iteration of the loop over the rows. */
  function TcpFilter(os: Win32, portState: uint32): TcpRow -> Option<NetPortInfo> {
    (row: TcpRow) =>
      if portState != NONE && row.state != portState then None
      else
        var (name, ok) := ResolveName(os, row.owningPid);
        if ok && name != "" then Some(Record(name, row)) else None
  }

  /** What EnumTcpPorts(portState) returns. */
  function TcpPorts(os: Win32, portState: uint32): (rv: seq<NetPortInfo>)
    ensures ProbeFailed(os) ==> rv == []
    ensures FetchFailed(os) ==> rv == []
    ensures FetchedRows(os).Some? ==> |rv| <= |FetchedRows(os).value|
  {
    match FetchedRows(os)
    case None => []
    case Some(rows) => FilterMap(rows, TcpFilter(os, portState))
  }

  /** One iteration of the loop as written, through the as-written lookup. */
  function TcpFilterAsWritten(os: Win32, portState: uint32): TcpRow -> Option<NetPortInfo> {
    (row: TcpRow) =>
      if portState != NONE && row.state != portState then None
      else
        var (name, ok) := ResolveNameAsWritten(os, row.owningPid);
        if ok && name != "" then Some(Record(name, row)) else None
  }

  /** What EnumTcpPorts(portState) returns as written. */
  function TcpPortsAsWritten(os: Win32, portState: uint32): seq<NetPortInfo> {
    match FetchedRows(os)
    case None => []
    case Some(rows) => FilterMap(rows, TcpFilterAsWritten(os, portState))
  }

  /** The as-written lookup differs only by reporting ("", true), and a record
      needs a non-empty name, so both lookups give the same records. */
  lemma TcpPortsAsWrittenAgree(os: Win32, portState: uint32)
    ensures TcpPortsAsWritten(os, portState) == TcpPorts(os, portState)
  {
    if FetchedRows(os).Some? {
      var rows := FetchedRows(os).value;
      forall i | 0 <= i < |rows|
        ensures TcpFilterAsWritten(os, portState)(rows[i]) == TcpFilter(os, portState)(rows[i])
      {
        ResolvedMeansOpened(os, rows[i].owningPid);
      }
      FilterMapCongruent(rows, TcpFilterAsWritten(os, portState), TcpFilter(os, portState));
    }
  }

  lemma TcpFilterSnoc(os: Win32, portState: uint32, rows: seq<TcpRow>, i: nat)
    requires i < |rows|
    ensures FilterMap(rows[..i + 1], TcpFilter(os, portState)) ==
      FilterMap(rows[..i], TcpFilter(os, portState)) + OptionToSeq(TcpFilter(os, portState)(rows[i]))
  {
    FilterMapSnoc(rows[..i], rows[i], TcpFilter(os, portState));
    assert rows[..i + 1] == rows[..i] + [rows[i]];
  }

  /** A row the state filter rejects adds nothing. */
  lemma SkipStep(os: Win32, portState: uint32, rows: seq<TcpRow>, i: nat)
    requires i < |rows| && portState != NONE && rows[i].state != portState
    ensures FilterMap(rows[..i + 1], TcpFilter(os, portState)) == FilterMap(rows[..i], TcpFilter(os, portState))
  {
    TcpFilterSnoc(os, portState, rows, i);
  }

  /** A row the state filter admits adds its record exactly when its owner resolves to a non-empty name. */
  lemma LookupStep(os: Win32, portState: uint32, rows: seq<TcpRow>, i: nat, name: string, ok: bool)
    requires i < |rows| && (portState == NONE || rows[i].state == portState)
    requires (name, ok) == ResolveName(os, rows[i].owningPid)
    ensures FilterMap(rows[..i + 1], TcpFilter(os, portState)) ==
      FilterMap(rows[..i], TcpFilter(os, portState)) + (if ok && name != "" then [Record(name, rows[i])] else [])
  {
    TcpFilterSnoc(os, portState, rows, i);
  }

  /** The gateway's outcome once both calls succeeded and the table decodes. */
  lemma TcpPortsOfTable(os: Win32, portState: uint32)
    requires !ProbeFailed(os) && !FetchFailed(os) && DecodeTable(TableBytes(os)).Table?
    ensures TcpPorts(os, portState) == FilterMap(DecodeTable(TableBytes(os)).rows, TcpFilter(os, portState))
  {
  }

  method EnumTcpPorts(os: Win32, portState: uint32) returns (rv: seq<NetPortInfo>)
    ensures rv == TcpPorts(os, portState)
  {
    rv := [];
    var probe := os.getExtendedTcpTable(PROBE_REQUEST);
    assert probe == Probe(os);
    var r := DoCall(probe.call);
    if !r.ok {
      return;
    }
    var bufSize := probe.size;
    var buffer := new uint8[bufSize];
    var fetch := os.getExtendedTcpTable(FetchRequest(bufSize));
    assert fetch == Fetch(os);
    forall i | 0 <= i < buffer.Length {
      buffer[i] := if i < |fetch.written| then fetch.written[i] else 0;
    }
    ghost var bytes := TableBytes(os);
    assert buffer[..] == bytes;
    r := DoCall(fetch.call);
    if !r.ok || r.retval != 0 {
      return;
    }
    // The bound the unchecked slice never tests.
    if buffer.Length < TABLE_HEADER_SIZE {
      return;
    }
    // The table is read through a pointer into the buffer; nothing writes the buffer from here on.
    var table := buffer[..];
    var entCount := Uint32At(table, 0);
    if TABLE_HEADER_SIZE + ROW_SIZE * entCount > |table| {
      return;
    }
    TcpPortsOfTable(os, portState);
    rv := ReportRows(os, portState, table, entCount, DecodeTable(table).rows);
  }

  /** The loop of EnumTcpPorts over the `count` rows of `table`. */
  method ReportRows(os: Win32, portState: uint32, table: seq<uint8>, count: uint32, ghost rows: seq<TcpRow>)
    returns (rv: seq<NetPortInfo>)
    requires TABLE_HEADER_SIZE + ROW_SIZE * count <= |table| && |rows| == count
    requires forall j {:trigger RowOffset(j)} :: 0 <= j < count ==> DecodeRow(table, RowOffset(j)) == rows[j]
    ensures rv == FilterMap(rows, TcpFilter(os, portState))
  {
    rv := [];
    var i := 0;
    while i < count
      invariant 0 <= i <= count
      invariant rv == FilterMap(rows[..i], TcpFilter(os, portState))
    {
      var row := DecodeRow(table, RowOffset(i));
      assert row == rows[i];
      if portState != NONE && row.state != portState {
        SkipStep(os, portState, rows, i);
      } else {
        var name, ok;
        ghost var calls;
        name, ok, calls := GetNameForProcess(os, row.owningPid);
        LookupStep(os, portState, rows, i, name, ok);
        if ok && name != "" {
          rv := rv + [Record(name, row)];
        }
      }
      i := i + 1;
    }
    assert rows[..i] == rows;
  }

  method EnumerateTcpPorts(os: Win32) returns (rv: seq<NetPortInfo>)
    ensures rv == TcpPorts(os, NONE)
  {
    rv := EnumTcpPorts(os, NONE);
  }

  /** The records are an order-preserving subsequence of the decoded rows: each
      describes a row that passes the filter, and every passing row is reported. */
  lemma TcpRowsSpec(os: Win32, portState: uint32, rows: seq<TcpRow>)
    ensures var out := FilterMap(rows, TcpFilter(os, portState));
      var idx := Kept(rows, TcpFilter(os, portState));
      && |out| <= |rows|
      && Increasing(idx)
      && (forall k :: 0 <= k < |out| ==> Passes(os, portState, rows[idx[k]]) && Describes(os, rows[idx[k]], out[k]))
      && (forall i :: 0 <= i < |rows| && Passes(os, portState, rows[i]) ==> i in idx)
  {
    var f := TcpFilter(os, portState);
    FilterMapKept(rows, f);
    assert forall row :: f(row).Some? <==> Passes(os, portState, row);
    assert forall row :: f(row).Some? ==> Describes(os, row, f(row).value);
  }

  /** With a state filter, only rows in that state are reported; with NONE the
      filter depends on the owner alone. */
  lemma StateFilter(os: Win32, portState: uint32, row: TcpRow)
    ensures portState != NONE && Passes(os, portState, row) ==> row.state == portState
    ensures Passes(os, NONE, row) <==> ResolveName(os, row.owningPid).1 && ResolveName(os, row.owningPid).0 != ""
    ensures Passes(os, NONE, row) <==> Passes(os, NONE, row.(state := LISTENING))
  {
  }

  /** Two rows: an established connection 127.0.0.1:80 to 93.184.216.34:443
      owned by PID 100, and a listener on 0.0.0.0:8080 owned by PID 200, with
      addresses and ports stored as the platform stores them. */
  const SCENARIO_ROWS: seq<TcpRow> := [
    TcpRow(ESTABLISHED, 0x0100_007F, 0x5000, 0x22D8_B85D, 0xBB01, 100),
    TcpRow(LISTENING, 0, 0x901F, 0, 0, 200)]

  /** The table bytes of the scenario decode to its two rows. */
  lemma ScenarioDecodes()
    ensures DecodeTable(EncodeTable(SCENARIO_ROWS)) == Table(SCENARIO_ROWS)
  {
    DecodeEncodedTable(SCENARIO_ROWS);
  }

  /** Filtering the scenario on LISTENING reports the one listener, on port 8080. */
  lemma ScenarioListening(os: Win32)
    requires ResolveName(os, 200).1 && ResolveName(os, 200).0 != ""
    ensures var out := FilterMap(SCENARIO_ROWS, TcpFilter(os, LISTENING));
      |out| == 1 && out[0].pid == 200 && out[0].localPort == 8080 && out[0].localIP == [0, 0, 0, 0]
  {
    var f := TcpFilter(os, LISTENING);
    FilterMapPair(SCENARIO_ROWS[0], SCENARIO_ROWS[1], f);
    assert f(SCENARIO_ROWS[0]) == None;
    PortExamples();
  }

  /** With no state filter both connections are reported, addresses and ports in host form. */
  lemma ScenarioUnfiltered(os: Win32)
    requires ResolveName(os, 100).1 && ResolveName(os, 100).0 != ""
    requires ResolveName(os, 200).1 && ResolveName(os, 200).0 != ""
    ensures var out := FilterMap(SCENARIO_ROWS, TcpFilter(os, NONE));
      && |out| == 2
      && out[0].pid == 100 && out[0].localIP == [127, 0, 0, 1] && out[0].localPort == 80
      && out[0].remoteIP == [93, 184, 216, 34] && out[0].remotePort == 443
      && out[1].pid == 200 && out[1].localIP == [0, 0, 0, 0] && out[1].localPort == 8080
      && out[1].remoteIP == [0, 0, 0, 0] && out[1].remotePort == 0
  {
    var f := TcpFilter(os, NONE);
    FilterMapPair(SCENARIO_ROWS[0], SCENARIO_ROWS[1], f);
    PortExamples();
  }
}
