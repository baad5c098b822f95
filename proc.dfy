/** proc_windows.go: resolving a PID to the base name of its first module,
    enumerating processes, finding processes by name and terminating one.
    GetNameForProcess and TerminateProc, which open a handle, also return
    the ghost trace of the platform calls they issued on it; the deferred
    CloseHandle is the last entry of every trace that opened a handle. The
    enumeration and search methods return only their results. */
module Proc {
  import opened Binary
  import opened Api
  import opened Seqs

  /** ProcInfo: a process identifier and its resolved name. */
  datatype ProcInfo = ProcInfo(name: string, pid: uint32)

  /** The access requested by OpenProcess in GetNameForProcess and TerminateProc. */
  const OPEN_ACCESS: bv32 := PROCESS_ALL_ACCESS | PROCESS_VM_READ
  /** unsafe.Sizeof(hMod): one module handle, 8 bytes on amd64. */
  const MODULE_HANDLE_SIZE: uintptr := 8
  /** The name buffer holds 260 * 2 + 100 UTF-16 code units. */
  const NAME_BUFFER_LEN: nat := 260 * 2 + 100
  /** The exit code TerminateProc asks for. */
  const EXIT_CODE: uintptr := 127
  /** EnumProcess's buffer: 1024 PIDs of 4 bytes. */
  const PID_CAPACITY: nat := 1024
  const PID_BUFFER_SIZE: uintptr := 1024 * 4

  // ---------------------------------------------------------------------------
  // GetNameForProcess, step by step

  function OpenCall(os: Win32, pid: uint32): CallResult {
    DoCall(os.openProcess(OPEN_ACCESS, false, pid))
  }

  /** OpenProcess succeeded: ok and a non-null handle. */
  predicate Opened(os: Win32, pid: uint32) {
    OpenCall(os, pid).ok && OpenCall(os, pid).retval != 0
  }

  function Modules(os: Win32, pid: uint32): ModulesReply {
    os.enumProcessModules(OpenCall(os, pid).retval, MODULE_HANDLE_SIZE)
  }

  /** EnumProcessModules on the opened handle succeeded: ok and nonzero. */
  predicate ModulesListed(os: Win32, pid: uint32) {
    var r := DoCall(Modules(os, pid).call);
    r.ok && r.retval != 0
  }

  // The size passed is the buffer's byte count, 1240, although GetModuleBaseNameW
  // counts nSize in characters; the model passes the same value as the code.
  function BaseName(os: Win32, pid: uint32): BaseNameReply {
    os.getModuleBaseName(OpenCall(os, pid).retval, Modules(os, pid).hMod, (NAME_BUFFER_LEN * 2) as uintptr)
  }

  /** GetModuleBaseNameW on the first module succeeded: ok and nonzero. */
  predicate BaseNameRead(os: Win32, pid: uint32) {
    var r := DoCall(BaseName(os, pid).call);
    r.ok && r.retval != 0
  }

  /** The intended meaning of GetNameForProcess: a name exactly when the PID is
      not the idle process and all three steps succeed, else ("", false). */
  function ResolveName(os: Win32, pid: uint32): (string, bool) {
    if pid != 0 && Opened(os, pid) && ModulesListed(os, pid) && BaseNameRead(os, pid)
    then (BaseName(os, pid).name, true)
    else ("", false)
  }

  /** GetNameForProcess as written: when OpenProcess returns a null handle with
      ok set, the early return hands back the ok that doCall left. */
  function ResolveNameAsWritten(os: Win32, pid: uint32): (string, bool) {
    if pid != 0 && OpenCall(os, pid).ok && OpenCall(os, pid).retval == 0 then ("", true)
    else ResolveName(os, pid)
  }

  /** The idle process never resolves. */
  lemma IdleNeverResolves(os: Win32)
    ensures ResolveName(os, 0) == ("", false)
    ensures ResolveNameAsWritten(os, 0) == ("", false)
  {
  }

  /** A failed OpenProcess (a null handle with any Errno, such as
      ERROR_ACCESS_DENIED, code 5) is reported as a successful lookup of the
      empty name by the code as written. */
  lemma NullHandleReportedOk(os: Win32, pid: uint32, code: uintptr)
    requires pid != 0
    requires os.openProcess(OPEN_ACCESS, false, pid) == RawCall(0, Errno(code))
    ensures ResolveNameAsWritten(os, pid) == ("", true)
    ensures ResolveName(os, pid) == ("", false)
  {
  }

  /** The corrected lookup reports success exactly when a non-null handle was
      opened and both module queries succeeded; the name is then the one read. */
  lemma ResolvedMeansOpened(os: Win32, pid: uint32)
    ensures ResolveName(os, pid).1 ==> OpenCall(os, pid).ok && OpenCall(os, pid).retval != 0
    ensures ResolveName(os, pid).1 <==> pid != 0 && Opened(os, pid) && ModulesListed(os, pid) && BaseNameRead(os, pid)
    ensures ResolveName(os, pid).1 ==> ResolveName(os, pid).0 == BaseName(os, pid).name
    ensures !ResolveName(os, pid).1 ==> ResolveName(os, pid).0 == ""
    ensures ResolveName(os, pid) != ResolveNameAsWritten(os, pid) <==>
      pid != 0 && OpenCall(os, pid).ok && OpenCall(os, pid).retval == 0
  {
  }

  /** The calls a lookup issues, in order: nothing for PID 0; the open alone when
      it fails; after a successful open, EnumProcessModules, then
      GetModuleBaseNameW only when that succeeded, and the deferred close last.
      The specification of the traces of GetNameForProcess and its as-written
      version, which issue the same calls. */
  function LookupCalls(os: Win32, pid: uint32): seq<Call> {
    if pid == 0 then []
    else if !Opened(os, pid) then [OpenProcess(OPEN_ACCESS, pid)]
    else
      var h := OpenCall(os, pid).retval;
      if !ModulesListed(os, pid) then [OpenProcess(OPEN_ACCESS, pid), EnumProcessModules(h), CloseHandle(h)]
      else [OpenProcess(OPEN_ACCESS, pid), EnumProcessModules(h), GetModuleBaseName(h, Modules(os, pid).hMod), CloseHandle(h)]
  }

  /** The trace of a lookup: nothing for PID 0, the OpenProcess call first, and
      after a successful open exactly one CloseHandle of that handle, last. */
  ghost predicate LookupTrace(os: Win32, pid: uint32, calls: seq<Call>) {
    && (pid == 0 ==> calls == [])
    && (pid != 0 ==> |calls| >= 1 && calls[0] == OpenProcess(OPEN_ACCESS, pid))
    && CloseCount(calls) == (if pid != 0 && Opened(os, pid) then 1 else 0)
    && (pid != 0 && Opened(os, pid) ==> calls[|calls| - 1] == CloseHandle(OpenCall(os, pid).retval))
    && (pid != 0 && !Opened(os, pid) ==> calls == [OpenProcess(OPEN_ACCESS, pid)])
  }

  ghost predicate ReadsBaseName(calls: seq<Call>) {
    exists i :: 0 <= i < |calls| && calls[i].GetModuleBaseName?
  }

  /** A lookup keeps the handle protocol; it lists the modules exactly when the
      open succeeded, reads the base name exactly when that listing succeeded,
      and issues nothing but these calls and the close. */
  lemma LookupCallsProtocol(os: Win32, pid: uint32)
    ensures LookupTrace(os, pid, LookupCalls(os, pid))
    ensures pid != 0 && Opened(os, pid) ==>
      LookupCalls(os, pid)[1] == EnumProcessModules(OpenCall(os, pid).retval)
    ensures ReadsBaseName(LookupCalls(os, pid)) <==> pid != 0 && Opened(os, pid) && ModulesListed(os, pid)
    ensures forall c :: c in LookupCalls(os, pid) ==>
      c.OpenProcess? || c.EnumProcessModules? || c.GetModuleBaseName? || c.CloseHandle?
  {
    var c := LookupCalls(os, pid);
    if pid != 0 && Opened(os, pid) {
      var h := OpenCall(os, pid).retval;
      var o := [OpenProcess(OPEN_ACCESS, pid)];
      CloseCountSnoc([], OpenProcess(OPEN_ACCESS, pid));
      CloseCountSnoc(o, EnumProcessModules(h));
      if ModulesListed(os, pid) {
        var g := GetModuleBaseName(h, Modules(os, pid).hMod);
        assert c == o + [EnumProcessModules(h)] + [g] + [CloseHandle(h)];
        CloseCountSnoc(o + [EnumProcessModules(h)], g);
        CloseCountSnoc(o + [EnumProcessModules(h)] + [g], CloseHandle(h));
        assert c[2].GetModuleBaseName?;
      } else {
        assert c == o + [EnumProcessModules(h)] + [CloseHandle(h)];
        CloseCountSnoc(o + [EnumProcessModules(h)], CloseHandle(h));
        assert !ReadsBaseName(c);
      }
    } else if pid != 0 {
      assert c == [OpenProcess(OPEN_ACCESS, pid)];
      assert c[..0] == [];
      assert !ReadsBaseName(c);
    }
  }

  /** GetNameForProcess, with the null-handle return corrected to report failure. */
  method GetNameForProcess(os: Win32, pid: uint32) returns (name: string, ok: bool, ghost calls: seq<Call>)
    ensures (name, ok) == ResolveName(os, pid)
    ensures calls == LookupCalls(os, pid)
  {
    name, ok, calls := "", false, [];
    if pid == 0 {
      return;
    }
    var open := DoCall(os.openProcess(OPEN_ACCESS, false, pid));
    calls := [OpenProcess(OPEN_ACCESS, pid)];
    if !open.ok || open.retval == 0 {
      ok := false;
      return;
    }
    var handle := open.retval;
    var mods := os.enumProcessModules(handle, MODULE_HANDLE_SIZE);
    calls := calls + [EnumProcessModules(handle)];
    var r := DoCall(mods.call);
    if !r.ok || r.retval == 0 {
      ok := false;
      calls := calls + [CloseHandle(handle)];
      return;
    }
    // Byte count where characters are expected, as in BaseName.
    var text := os.getModuleBaseName(handle, mods.hMod, (NAME_BUFFER_LEN * 2) as uintptr);
    calls := calls + [GetModuleBaseName(handle, mods.hMod)];
    r := DoCall(text.call);
    if !r.ok || r.retval == 0 {
      ok := false;
      calls := calls + [CloseHandle(handle)];
      return;
    }
    name, ok := text.name, true;
    calls := calls + [CloseHandle(handle)];
  }

  /** GetNameForProcess as written; it differs from the corrected one only on a
      null handle with ok set, which it reports as ("", true). */
  method GetNameForProcessAsWritten(os: Win32, pid: uint32) returns (name: string, ok: bool, ghost calls: seq<Call>)
    ensures (name, ok) == ResolveNameAsWritten(os, pid)
    ensures calls == LookupCalls(os, pid)
  {
    name, ok, calls := "", false, [];
    if pid == 0 {
      return;
    }
    var open := DoCall(os.openProcess(OPEN_ACCESS, false, pid));
    ok := open.ok;
    calls := [OpenProcess(OPEN_ACCESS, pid)];
    if !ok || open.retval == 0 {
      return;
    }
    var handle := open.retval;
    var mods := os.enumProcessModules(handle, MODULE_HANDLE_SIZE);
    calls := calls + [EnumProcessModules(handle)];
    var r := DoCall(mods.call);
    ok := r.ok;
    if !ok || r.retval == 0 {
      ok := false;
      calls := calls + [CloseHandle(handle)];
      return;
    }
    // Byte count where characters are expected, as in BaseName.
    var text := os.getModuleBaseName(handle, mods.hMod, (NAME_BUFFER_LEN * 2) as uintptr);
    calls := calls + [GetModuleBaseName(handle, mods.hMod)];
    r := DoCall(text.call);
    ok := r.ok;
    if !ok || r.retval == 0 {
      ok := false;
      calls := calls + [CloseHandle(handle)];
      return;
    }
    name := text.name;
    calls := calls + [CloseHandle(handle)];
  }

  // ---------------------------------------------------------------------------
  // EnumProcess

  /** The bytes of EnumProcess's 4096-byte buffer after EnumProcesses. */
  function PidBuffer(os: Win32): (b: seq<uint8>)
    ensures |b| == PID_BUFFER_SIZE
  {
    Filled(os.enumProcesses(PID_BUFFER_SIZE).written, PID_BUFFER_SIZE)
  }

  /** The PIDs EnumProcess considers: the first cbNeeded / 4 DWORDs of the buffer.
      A count beyond the buffer's 1024 entries yields none. */
  function ProcessIds(os: Win32): (ids: seq<uint32>)
    ensures |ids| <= PID_CAPACITY
  {
    var n := os.enumProcesses(PID_BUFFER_SIZE).cbNeeded / 4;
    if n > PID_CAPACITY then []
    else seq(n, i requires 0 <= i < n => Uint32At(PidBuffer(os), 4 * i))
  }

  /** One PID of the loop in EnumProcess: kept with its name when it resolves. */
  function ProcFilter(os: Win32): uint32 -> Option<ProcInfo> {
    (pid: uint32) => var (name, ok) := ResolveName(os, pid); if ok then Some(ProcInfo(name, pid)) else None
  }

  /** What EnumProcess returns. */
  function ProcessList(os: Win32): seq<ProcInfo> {
    FilterMap(ProcessIds(os), ProcFilter(os))
  }

  /** One PID of the loop in EnumProcess as written, through the as-written lookup. */
  function ProcFilterAsWritten(os: Win32): uint32 -> Option<ProcInfo> {
    (pid: uint32) => var (name, ok) := ResolveNameAsWritten(os, pid); if ok then Some(ProcInfo(name, pid)) else None
  }

  /** What EnumProcess returns as written. */
  function ProcessListAsWritten(os: Win32): seq<ProcInfo> {
    FilterMap(ProcessIds(os), ProcFilterAsWritten(os))
  }

  /** OpenProcess returned a null handle that doCall reports as ok. */
  predicate NullOpen(os: Win32, pid: uint32) {
    pid != 0 && OpenCall(os, pid).ok && OpenCall(os, pid).retval == 0
  }

  function DropNullOpen(os: Win32): ProcInfo -> Option<ProcInfo> {
    (p: ProcInfo) => if NullOpen(os, p.pid) then None else Some(p)
  }

  /** Per PID: the corrected filter is the as-written one followed by dropping
      null-handle entries. */
  lemma ProcFilterThenDrop(os: Win32, pid: uint32)
    ensures ProcFilter(os)(pid) ==
      (if ProcFilterAsWritten(os)(pid).Some? then DropNullOpen(os)(ProcFilterAsWritten(os)(pid).value) else None)
  {
  }

  /** The corrected list is the list as written with the null-handle entries removed. */
  lemma ProcessListAsWrittenDiffers(os: Win32)
    ensures ProcessList(os) == FilterMap(ProcessListAsWritten(os), DropNullOpen(os))
  {
    var ids := ProcessIds(os);
    forall i | 0 <= i < |ids|
      ensures ProcFilter(os)(ids[i]) ==
        (if ProcFilterAsWritten(os)(ids[i]).Some? then DropNullOpen(os)(ProcFilterAsWritten(os)(ids[i]).value) else None)
    {
      ProcFilterThenDrop(os, ids[i]);
    }
    FilterMapThen(ids, ProcFilterAsWritten(os), DropNullOpen(os), ProcFilter(os));
  }

  /** Those removed entries are exactly ("", pid), one for each considered PID
      whose open gave a null handle with ok set. */
  lemma NullOpenEntries(os: Win32)
    ensures forall p :: p in ProcessListAsWritten(os) && NullOpen(os, p.pid) ==> p.name == ""
    ensures forall i :: 0 <= i < |ProcessIds(os)| && NullOpen(os, ProcessIds(os)[i]) ==>
      ProcInfo("", ProcessIds(os)[i]) in ProcessListAsWritten(os)
  {
    NullOpenEntriesNamed(os);
    NullOpenEntriesPresent(os);
  }

  /** One listed PID, 5, whose open is denied with a null handle: the corrected
      list is empty, while the list as written holds ("", 5). */
  lemma DeniedPidListed(os: Win32)
    requires ProcessIds(os) == [5]
    requires os.openProcess(OPEN_ACCESS, false, 5) == RawCall(0, Errno(5))
    ensures ProcessList(os) == []
    ensures ProcessListAsWritten(os) == [ProcInfo("", 5)]
  {
    FilterMapSnoc([], 5 as uint32, ProcFilter(os));
    FilterMapSnoc([], 5 as uint32, ProcFilterAsWritten(os));
    assert [] + [5 as uint32] == [5];
  }

  lemma NullOpenEntriesNamed(os: Win32)
    ensures forall p :: p in ProcessListAsWritten(os) && NullOpen(os, p.pid) ==> p.name == ""
  {
    var ids, fw, L := ProcessIds(os), ProcFilterAsWritten(os), ProcessListAsWritten(os);
    KeptSound(ids, fw);
    forall p | p in L && NullOpen(os, p.pid) ensures p.name == "" {
      var k :| 0 <= k < |L| && L[k] == p;
      assert fw(ids[Kept(ids, fw)[k]]) == Some(p);
    }
  }

  lemma NullOpenEntriesPresent(os: Win32)
    ensures forall i :: 0 <= i < |ProcessIds(os)| && NullOpen(os, ProcessIds(os)[i]) ==>
      ProcInfo("", ProcessIds(os)[i]) in ProcessListAsWritten(os)
  {
    var ids, fw, L := ProcessIds(os), ProcFilterAsWritten(os), ProcessListAsWritten(os);
    KeptSound(ids, fw);
    KeptComplete(ids, fw);
    forall i | 0 <= i < |ids| && NullOpen(os, ids[i]) ensures ProcInfo("", ids[i]) in L {
      assert fw(ids[i]) == Some(ProcInfo("", ids[i]));
      var k :| 0 <= k < |Kept(ids, fw)| && Kept(ids, fw)[k] == i;
      assert fw(ids[i]) == Some(L[k]);
    }
  }

  method EnumProcess(os: Win32) returns (procs: seq<ProcInfo>)
    ensures procs == ProcessList(os)
  {
    var buff := new uint8[PID_BUFFER_SIZE];
    var reply := os.enumProcesses(PID_BUFFER_SIZE);
    forall i | 0 <= i < buff.Length {
      buff[i] := if i < |reply.written| then reply.written[i] else 0;
    }
    // A failed call is only logged; cbNeeded is used either way.
    var processCount := reply.cbNeeded / 4;
    procs := [];
    if processCount > PID_CAPACITY {
      return;
    }
    // The PIDs are read through a pointer into the buffer; nothing writes it from here on.
    var table := buff[..];
    PidsInBuffer(os, table);
    procs := ResolveListed(os, table, processCount, ProcessIds(os));
  }

  /** The loop of EnumProcess over the PIDs read from the buffer: each PID that
      resolves is appended with its name. */
  method ResolveListed(os: Win32, table: seq<uint8>, count: nat, ghost ids: seq<uint32>) returns (procs: seq<ProcInfo>)
    requires 4 * count <= |table| && |ids| == count
    requires forall j :: 0 <= j < count ==> Uint32At(table, 4 * j) == ids[j]
    ensures procs == FilterMap(ids, ProcFilter(os))
  {
    procs := [];
    var i := 0;
    while i < count
      invariant 0 <= i <= count
      invariant procs == FilterMap(ids[..i], ProcFilter(os))
    {
      var procID := Uint32At(table, 4 * i);
      var name, ok;
      ghost var calls;
      name, ok, calls := GetNameForProcess(os, procID);
      ProcessesSnoc(os, ids, i);
      if ok {
        procs := procs + [ProcInfo(name, procID)];
      }
      i := i + 1;
    }
    assert ids[..i] == ids;
  }

  lemma PidsInBuffer(os: Win32, b: seq<uint8>)
    requires b == Filled(os.enumProcesses(PID_BUFFER_SIZE).written, PID_BUFFER_SIZE)
    requires os.enumProcesses(PID_BUFFER_SIZE).cbNeeded / 4 <= PID_CAPACITY
    ensures |ProcessIds(os)| == os.enumProcesses(PID_BUFFER_SIZE).cbNeeded / 4
    ensures forall j :: 0 <= j < |ProcessIds(os)| ==> Uint32At(b, 4 * j) == ProcessIds(os)[j]
  {
  }

  lemma ProcessesSnoc(os: Win32, ids: seq<uint32>, i: nat)
    requires i < |ids|
    ensures FilterMap(ids[..i + 1], ProcFilter(os)) ==
      FilterMap(ids[..i], ProcFilter(os)) + (if ResolveName(os, ids[i]).1 then [ProcInfo(ResolveName(os, ids[i]).0, ids[i])] else [])
  {
    FilterMapSnoc(ids[..i], ids[i], ProcFilter(os));
    assert ids[..i + 1] == ids[..i] + [ids[i]];
  }

  /** EnumProcess returns, in platform order, every considered PID that resolves,
      paired with its name, and nothing else; the idle PID 0 never appears. */
  lemma ProcessListSpec(os: Win32)
    ensures |ProcessList(os)| <= |ProcessIds(os)| <= PID_CAPACITY
    ensures Increasing(Kept(ProcessIds(os), ProcFilter(os)))
    ensures forall k :: 0 <= k < |ProcessList(os)| ==>
      var pid := ProcessIds(os)[Kept(ProcessIds(os), ProcFilter(os))[k]];
      ProcessList(os)[k] == ProcInfo(ResolveName(os, pid).0, pid) && ResolveName(os, pid).1
    ensures forall i :: 0 <= i < |ProcessIds(os)| && ResolveName(os, ProcessIds(os)[i]).1 ==>
      i in Kept(ProcessIds(os), ProcFilter(os))
    ensures forall p :: p in ProcessList(os) ==> p.pid != 0
  {
    FilterMapKept(ProcessIds(os), ProcFilter(os));
    ProcessListNoIdle(os);
  }

  lemma ProcessListNoIdle(os: Win32)
    ensures forall p :: p in ProcessList(os) ==> p.pid != 0
  {
    var ids, f := ProcessIds(os), ProcFilter(os);
    FilterMapKept(ids, f);
    forall p | p in ProcessList(os) ensures p.pid != 0 {
      var k :| 0 <= k < |ProcessList(os)| && ProcessList(os)[k] == p;
      assert f(ids[Kept(ids, f)[k]]) == Some(p);
    }
  }

  /** The outcome of the EnumProcesses call itself is only logged: it does not
      change the list. */
  lemma EnumStatusIgnored(os: Win32, status: RawCall)
    ensures var reply := os.enumProcesses(PID_BUFFER_SIZE);
      var os' := os.(enumProcesses := cb => EnumProcessesReply(status, reply.written, reply.cbNeeded));
      ProcessList(os') == ProcessList(os)
  {
    var reply := os.enumProcesses(PID_BUFFER_SIZE);
    var os' := os.(enumProcesses := cb => EnumProcessesReply(status, reply.written, reply.cbNeeded));
    assert ProcessIds(os') == ProcessIds(os);
    FilterMapCongruent(ProcessIds(os), ProcFilter(os'), ProcFilter(os));
  }

  // ---------------------------------------------------------------------------
  // FindFirstProcessByName, FindProcessesByName

  /** strings.ToLower on ASCII letters. */
  function ToLower(s: string): (t: string)
    ensures |t| == |s|
  {
    seq(|s|, i requires 0 <= i < |s| => if 'A' <= s[i] <= 'Z' then (s[i] as int + 32) as char else s[i])
  }

  predicate SameName(a: string, b: string) {
    ToLower(a) == ToLower(b)
  }

  function NameFilter(name: string): ProcInfo -> Option<uint32> {
    (p: ProcInfo) => if SameName(name, p.name) then Some(p.pid) else None
  }

  /** The PIDs of the entries whose name matches `name` case-insensitively, in order. */
  function PidsNamed(procs: seq<ProcInfo>, name: string): seq<uint32> {
    FilterMap(procs, NameFilter(name))
  }

  lemma PidsNamedSpec(procs: seq<ProcInfo>, name: string)
    ensures Increasing(Kept(procs, NameFilter(name)))
    ensures forall k :: 0 <= k < |PidsNamed(procs, name)| ==>
      var p := procs[Kept(procs, NameFilter(name))[k]];
      SameName(name, p.name) && PidsNamed(procs, name)[k] == p.pid
    ensures forall i :: 0 <= i < |procs| && SameName(name, procs[i].name) ==> i in Kept(procs, NameFilter(name))
  {
    FilterMapKept(procs, NameFilter(name));
  }

  lemma PidsNamedSnoc(procs: seq<ProcInfo>, i: nat, name: string)
    requires i < |procs|
    ensures PidsNamed(procs[..i + 1], name) ==
      PidsNamed(procs[..i], name) + (if SameName(name, procs[i].name) then [procs[i].pid] else [])
  {
    FilterMapSnoc(procs[..i], procs[i], NameFilter(name));
    assert procs[..i + 1] == procs[..i] + [procs[i]];
  }

  method FindProcessesByName(os: Win32, name: string) returns (rv: seq<uint32>)
    ensures rv == PidsNamed(ProcessList(os), name)
  {
    var procs := EnumProcess(os);
    rv := [];
    for i := 0 to |procs|
      invariant rv == PidsNamed(procs[..i], name)
    {
      PidsNamedSnoc(procs, i, name);
      if SameName(name, procs[i].name) {
        rv := rv + [procs[i].pid];
      }
    }
    assert procs[..|procs|] == procs;
  }

  /** FindFirstProcessByName returns the first PID FindProcessesByName would
      return over the same snapshot, or 0 when there is none. Since no listed
      PID is 0, the result is 0 exactly when no process has the name. */
  method FindFirstProcessByName(os: Win32, name: string) returns (pid: uint32)
    ensures var m := PidsNamed(ProcessList(os), name); pid == if m == [] then 0 else m[0]
    ensures pid == 0 <==> forall p :: p in ProcessList(os) ==> !SameName(name, p.name)
  {
    var procs := EnumProcess(os);
    ProcessListNoIdle(os);
    pid := FirstNamed(procs, name);
  }

  /** The loop of FindFirstProcessByName over the snapshot `procs`, none of whose PIDs is 0. */
  method FirstNamed(procs: seq<ProcInfo>, name: string) returns (pid: uint32)
    requires forall p :: p in procs ==> p.pid != 0
    ensures var m := PidsNamed(procs, name); pid == if m == [] then 0 else m[0]
    ensures pid == 0 <==> forall p :: p in procs ==> !SameName(name, p.name)
  {
    for i := 0 to |procs|
      invariant forall j :: 0 <= j < i ==> !SameName(name, procs[j].name)
    {
      if SameName(name, procs[i].name) {
        FirstMatch(procs, i, name);
        return procs[i].pid;
      }
    }
    NoMatch(procs, |procs|, name);
    return 0;
  }

  /** Nothing matches before `n`, so the matching PIDs of the prefix are none. */
  lemma {:induction false} NoMatch(procs: seq<ProcInfo>, n: nat, name: string)
    requires n <= |procs|
    requires forall j :: 0 <= j < n ==> !SameName(name, procs[j].name)
    ensures PidsNamed(procs[..n], name) == []
    ensures n == |procs| ==> PidsNamed(procs, name) == []
    ensures n == |procs| ==> forall p :: p in procs ==> !SameName(name, p.name)
  {
    if n > 0 {
      NoMatch(procs, n - 1, name);
      PidsNamedSnoc(procs, n - 1, name);
    }
    assert n == |procs| ==> procs[..n] == procs;
  }

  lemma FirstMatch(procs: seq<ProcInfo>, i: nat, name: string)
    requires i < |procs| && SameName(name, procs[i].name)
    requires forall j :: 0 <= j < i ==> !SameName(name, procs[j].name)
    requires forall p :: p in procs ==> p.pid != 0
    ensures PidsNamed(procs, name) != [] && PidsNamed(procs, name)[0] == procs[i].pid
    ensures procs[i].pid != 0 && !(forall p :: p in procs ==> !SameName(name, p.name))
  {
    NoMatch(procs, i, name);
    FilterMapFirst(procs, i, NameFilter(name));
    assert procs[i] in procs;
  }

  /** Through the list as written, a search for the empty name returns every
      PID whose open gave a null handle with ok set, so FindProcessesByName("")
      lists them. FindFirstProcessByName("") returns the first entry with an
      empty name, which is such a PID unless a resolved process has an empty
      base name. */
  lemma EmptyNameFindsNullHandles(os: Win32)
    ensures forall i :: 0 <= i < |ProcessIds(os)| && NullOpen(os, ProcessIds(os)[i]) ==>
      ProcessIds(os)[i] in PidsNamed(ProcessListAsWritten(os), "")
  {
    var ids, L := ProcessIds(os), ProcessListAsWritten(os);
    NullOpenEntries(os);
    PidsNamedSpec(L, "");
    forall i | 0 <= i < |ids| && NullOpen(os, ids[i]) ensures ids[i] in PidsNamed(L, "") {
      var j :| 0 <= j < |L| && L[j] == ProcInfo("", ids[i]);
      assert SameName("", L[j].name);
      var k :| 0 <= k < |Kept(L, NameFilter(""))| && Kept(L, NameFilter(""))[k] == j;
      assert PidsNamed(L, "")[k] == ids[i];
    }
  }

  // ---------------------------------------------------------------------------
  // TerminateProc

  /** What TerminateProc reports (it logs these; the model returns them). */
  datatype TerminateReport =
    | OpenFailed(err: uintptr)
    | TerminateFailed(err: uintptr)
    | WaitFailed(err: uintptr)
    | WaitAnomaly(event: uintptr)
    | Exited

  datatype Termination = Termination(report: TerminateReport, calls: seq<Call>)

  /** Everything after a successful open of `handle`, the deferred close included.
      The specification of the method Finish, which issues these steps one by one. */
  function AfterOpen(os: Win32, handle: uintptr): Termination {
    var t := DoCall(os.terminateProcess(handle, EXIT_CODE));
    if !t.ok || t.retval == 0 then
      Termination(TerminateFailed(t.sysErr), [TerminateProcess(handle, EXIT_CODE), CloseHandle(handle)])
    else
      var w := DoCall(os.waitForSingleObject(handle, INFINITE));
      var calls := [TerminateProcess(handle, EXIT_CODE), WaitForSingleObject(handle, INFINITE), CloseHandle(handle)];
      if !w.ok then Termination(WaitFailed(w.sysErr), calls)
      else if w.retval != WAIT_OBJECT_0 then Termination(WaitAnomaly(w.retval), calls)
      else Termination(Exited, calls)
  }

  /** TerminateProc, corrected to stop when OpenProcess returns a null handle.
      The specification of the method TerminateProc. */
  function Terminate(os: Win32, pid: uint32): Termination {
    var o := OpenCall(os, pid);
    if !o.ok || o.retval == 0 then Termination(OpenFailed(o.sysErr), [OpenProcess(OPEN_ACCESS, pid)])
    else var rest := AfterOpen(os, o.retval); Termination(rest.report, [OpenProcess(OPEN_ACCESS, pid)] + rest.calls)
  }

  /** TerminateProc as written: only doCall's ok is checked after OpenProcess.
      The specification of the method TerminateProcAsWritten. */
  function TerminateAsWritten(os: Win32, pid: uint32): Termination {
    var o := OpenCall(os, pid);
    if !o.ok then Termination(OpenFailed(o.sysErr), [OpenProcess(OPEN_ACCESS, pid)])
    else var rest := AfterOpen(os, o.retval); Termination(rest.report, [OpenProcess(OPEN_ACCESS, pid)] + rest.calls)
  }

  ghost predicate HasWait(calls: seq<Call>) {
    exists i :: 0 <= i < |calls| && calls[i].WaitForSingleObject?
  }

  predicate TerminateSucceeded(os: Win32, handle: uintptr) {
    var t := DoCall(os.terminateProcess(handle, EXIT_CODE));
    t.ok && t.retval != 0
  }

  /** The termination protocol: open first; nothing else when the open fails;
      otherwise TerminateProcess(handle, 127), then WaitForSingleObject(handle,
      INFINITE) exactly when termination succeeded, and exactly one CloseHandle
      of the handle, last. A wait result other than WAIT_OBJECT_0 changes only the report. */
  lemma {:induction false} TerminateProtocol(os: Win32, pid: uint32)
    ensures var t := Terminate(os, pid);
      && |t.calls| >= 1 && t.calls[0] == OpenProcess(OPEN_ACCESS, pid)
      && (t.report.OpenFailed? <==> !Opened(os, pid))
      && (!Opened(os, pid) ==> t.calls == [OpenProcess(OPEN_ACCESS, pid)] && CloseCount(t.calls) == 0)
      && (Opened(os, pid) ==>
            var h := OpenCall(os, pid).retval;
            && |t.calls| >= 3
            && t.calls[1] == TerminateProcess(h, EXIT_CODE)
            && t.calls[|t.calls| - 1] == CloseHandle(h)
            && CloseCount(t.calls) == 1
            && (t.report.TerminateFailed? <==> !TerminateSucceeded(os, h))
            && (HasWait(t.calls) <==> TerminateSucceeded(os, h))
            && (HasWait(t.calls) ==> t.calls[2] == WaitForSingleObject(h, INFINITE)))
      && (t.report.Exited? || t.report.WaitAnomaly? || t.report.WaitFailed? <==> HasWait(t.calls))
  {
    var t := Terminate(os, pid);
    if Opened(os, pid) {
      var h := OpenCall(os, pid).retval;
      var o := [OpenProcess(OPEN_ACCESS, pid)];
      if TerminateSucceeded(os, h) {
        var c := o + [TerminateProcess(h, EXIT_CODE), WaitForSingleObject(h, INFINITE), CloseHandle(h)];
        assert t.calls == c;
        assert c == o + [TerminateProcess(h, EXIT_CODE)] + [WaitForSingleObject(h, INFINITE)] + [CloseHandle(h)];
        CloseCountSnoc([], OpenProcess(OPEN_ACCESS, pid));
        CloseCountSnoc(o, TerminateProcess(h, EXIT_CODE));
        CloseCountSnoc(o + [TerminateProcess(h, EXIT_CODE)], WaitForSingleObject(h, INFINITE));
        CloseCountSnoc(o + [TerminateProcess(h, EXIT_CODE)] + [WaitForSingleObject(h, INFINITE)], CloseHandle(h));
        assert HasWait(t.calls) by { assert t.calls[2].WaitForSingleObject?; }
      } else {
        var c := o + [TerminateProcess(h, EXIT_CODE), CloseHandle(h)];
        assert t.calls == c;
        assert c == o + [TerminateProcess(h, EXIT_CODE)] + [CloseHandle(h)];
        CloseCountSnoc([], OpenProcess(OPEN_ACCESS, pid));
        CloseCountSnoc(o, TerminateProcess(h, EXIT_CODE));
        CloseCountSnoc(o + [TerminateProcess(h, EXIT_CODE)], CloseHandle(h));
        assert !HasWait(t.calls);
      }
    } else {
      assert t.calls == [OpenProcess(OPEN_ACCESS, pid)];
      assert t.calls[..0] == [];
      assert !HasWait(t.calls);
    }
  }

  /** As written, a null handle that doCall reports as ok (OpenProcess failing with
      any Errno, such as ERROR_ACCESS_DENIED, code 5) is terminated and closed as
      if it were the process; the corrected version stops and reports that code. */
  lemma NullHandleTerminated(os: Win32, pid: uint32, code: uintptr)
    requires os.openProcess(OPEN_ACCESS, false, pid) == RawCall(0, Errno(code))
    ensures |TerminateAsWritten(os, pid).calls| >= 3
    ensures TerminateAsWritten(os, pid).calls[1] == TerminateProcess(0, EXIT_CODE)
    ensures TerminateAsWritten(os, pid).calls[|TerminateAsWritten(os, pid).calls| - 1] == CloseHandle(0)
    ensures Terminate(os, pid) == Termination(OpenFailed(code), [OpenProcess(OPEN_ACCESS, pid)])
  {
  }

  /** The two versions agree whenever the open yields a non-null handle or is not ok. */
  lemma TerminateAsWrittenAgrees(os: Win32, pid: uint32)
    requires !OpenCall(os, pid).ok || OpenCall(os, pid).retval != 0
    ensures TerminateAsWritten(os, pid) == Terminate(os, pid)
  {
  }

  /** TerminateProc, corrected; it issues the calls the function Terminate describes. */
  method TerminateProc(os: Win32, pid: uint32) returns (report: TerminateReport, ghost calls: seq<Call>)
    ensures report == Terminate(os, pid).report
    ensures calls == Terminate(os, pid).calls
  {
    var open := DoCall(os.openProcess(OPEN_ACCESS, false, pid));
    calls := [OpenProcess(OPEN_ACCESS, pid)];
    if !open.ok || open.retval == 0 {
      report := OpenFailed(open.sysErr);
      return;
    }
    var handle := open.retval;
    report, calls := Finish(os, handle, calls);
  }

  /** TerminateProc as written; it issues the calls the function TerminateAsWritten describes. */
  method TerminateProcAsWritten(os: Win32, pid: uint32) returns (report: TerminateReport, ghost calls: seq<Call>)
    ensures report == TerminateAsWritten(os, pid).report
    ensures calls == TerminateAsWritten(os, pid).calls
  {
    var open := DoCall(os.openProcess(OPEN_ACCESS, false, pid));
    calls := [OpenProcess(OPEN_ACCESS, pid)];
    if !open.ok {
      report := OpenFailed(open.sysErr);
      return;
    }
    var handle := open.retval;
    report, calls := Finish(os, handle, calls);
  }

  /** The steps of TerminateProc after the open: terminate, wait, and the deferred
      close, issued as the function AfterOpen describes them. */
  method Finish(os: Win32, handle: uintptr, ghost before: seq<Call>) returns (report: TerminateReport, ghost calls: seq<Call>)
    ensures report == AfterOpen(os, handle).report
    ensures calls == before + AfterOpen(os, handle).calls
  {
    var r := DoCall(os.terminateProcess(handle, EXIT_CODE));
    calls := before + [TerminateProcess(handle, EXIT_CODE)];
    if !r.ok || r.retval == 0 {
      report := TerminateFailed(r.sysErr);
      calls := calls + [CloseHandle(handle)];
      return;
    }
    r := DoCall(os.waitForSingleObject(handle, INFINITE));
    calls := calls + [WaitForSingleObject(handle, INFINITE)];
    if !r.ok {
      report := WaitFailed(r.sysErr);
    } else if r.retval != WAIT_OBJECT_0 {
      report := WaitAnomaly(r.retval);
    } else {
      report := Exited;
    }
    calls := calls + [CloseHandle(handle)];
  }
}
