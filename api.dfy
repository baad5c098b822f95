/** api_windows.go: the access-right and wait constants, the classification
    of a foreign call's result (doCall), and the platform entry points that
    init() binds, each replaced by an oracle: a total function from the
    call's arguments to what the call returns and writes back. */
module Api {
  import opened Binary

  // Access rights of OpenProcess, as bit masks.
  const STANDARD_RIGHTS_REQUIRED: bv32 := 0x000F_0000
  const SYNCHRONIZE: bv32 := 0x0010_0000

  const PROCESS_TERMINATE: bv32 := 0x0001
  const PROCESS_CREATE_THREAD: bv32 := 0x0002
  const PROCESS_SET_SESSIONID: bv32 := 0x0004
  const PROCESS_VM_OPERATION: bv32 := 0x0008
  const PROCESS_VM_READ: bv32 := 0x0010
  const PROCESS_VM_WRITE: bv32 := 0x0020
  const PROCESS_DUP_HANDLE: bv32 := 0x0040
  const PROCESS_CREATE_PROCESS: bv32 := 0x0080
  const PROCESS_SET_QUOTA: bv32 := 0x0100
  const PROCESS_SET_INFORMATION: bv32 := 0x0200
  const PROCESS_QUERY_INFORMATION: bv32 := 0x0400
  const PROCESS_SUSPEND_RESUME: bv32 := 0x0800
  const PROCESS_QUERY_LIMITED_INFORMATION: bv32 := 0x1000
  const PROCESS_SET_LIMITED_INFORMATION: bv32 := 0x2000

  const PROCESS_ALL_ACCESS: bv32 := STANDARD_RIGHTS_REQUIRED | SYNCHRONIZE | 0xFFFF

  /** The specific process rights, in declaration order. */
  const PROCESS_RIGHTS: seq<bv32> := [
    PROCESS_TERMINATE, PROCESS_CREATE_THREAD, PROCESS_SET_SESSIONID, PROCESS_VM_OPERATION,
    PROCESS_VM_READ, PROCESS_VM_WRITE, PROCESS_DUP_HANDLE, PROCESS_CREATE_PROCESS,
    PROCESS_SET_QUOTA, PROCESS_SET_INFORMATION, PROCESS_QUERY_INFORMATION, PROCESS_SUSPEND_RESUME,
    PROCESS_QUERY_LIMITED_INFORMATION, PROCESS_SET_LIMITED_INFORMATION]

  const INFINITE: uint32 := 0xFFFF_FFFF

  // Results of WaitForSingleObject.
  const WAIT_OBJECT_0: uint32 := 0
  const WAIT_ABANDONED: uint32 := 0x80
  const WAIT_TIMEOUT: uint32 := 0x102
  const WAIT_FAILED: uint32 := 0xFFFF_FFFF

  lemma AllAccessValue()
    ensures PROCESS_ALL_ACCESS == 0x001F_FFFF
  {
  }

  /** OpenProcess is called with PROCESS_ALL_ACCESS | PROCESS_VM_READ: the read right is already included. */
  lemma VmReadAddsNothing()
    ensures PROCESS_ALL_ACCESS | PROCESS_VM_READ == PROCESS_ALL_ACCESS
  {
  }

  /** Right i is bit i, so the rights are distinct single bits inside the low 16 bits. */
  lemma ProcessRightsAreDistinctBits()
    ensures |PROCESS_RIGHTS| == 14
    ensures forall i :: 0 <= i < |PROCESS_RIGHTS| ==> PROCESS_RIGHTS[i] == 1 << i
    ensures forall i :: 0 <= i < |PROCESS_RIGHTS| ==>
      PROCESS_RIGHTS[i] != 0 && PROCESS_RIGHTS[i] & (PROCESS_RIGHTS[i] - 1) == 0 &&
      PROCESS_RIGHTS[i] & 0xFFFF == PROCESS_RIGHTS[i] &&
      PROCESS_RIGHTS[i] & PROCESS_ALL_ACCESS == PROCESS_RIGHTS[i]
    ensures forall i, j :: 0 <= i < j < |PROCESS_RIGHTS| ==> PROCESS_RIGHTS[i] & PROCESS_RIGHTS[j] == 0
  {
  }

  /** The dynamic type of the `error` a foreign call reports: a syscall.Errno, or anything else. */
  datatype LastError = Errno(code: uintptr) | OtherError

  /** What a foreign call returns: r1 and lastErr (r2 is discarded by the package). */
  datatype RawCall = RawCall(r1: uintptr, lastErr: LastError)

  /** doCall's triple (retval, ok, sysErr). */
  datatype CallResult = CallResult(retval: uintptr, ok: bool, sysErr: uintptr)

  /** doCall: the type assertion on lastErr sets ok and sysErr; the early return
      for a nonzero Errno keeps the assertion's ok, so ok is exactly "lastErr is
      an Errno", whatever its code. */
  function DoCall(call: RawCall): (r: CallResult)
    ensures r.retval == call.r1
    ensures r.ok <==> call.lastErr.Errno?
    ensures r.ok ==> r.sysErr == call.lastErr.code
    ensures !r.ok ==> r.sysErr == 0
  {
    var (sysErr, ok) := match call.lastErr
      case Errno(code) => (code, true)
      case OtherError => (0, false);
    if !ok || sysErr != 0 then CallResult(call.r1, ok, sysErr)
    else CallResult(call.r1, true, sysErr)
  }

  /** The bytes a Go buffer of `n` zeroed bytes holds after the platform wrote `written` into it. */
  function Filled(written: seq<uint8>, n: nat): (b: seq<uint8>)
    ensures |b| == n
  {
    seq(n, i requires 0 <= i < n => if i < |written| then written[i] else 0)
  }

  /** `k` zero bytes: what `make([]byte, k)` holds. */
  function Zeros(k: nat): (z: seq<uint8>)
    ensures |z| == k
  {
    seq(k, i requires 0 <= i < k => 0)
  }

  /** The buffer keeps the first `n` bytes written when the platform fills it,
      and pads a shorter write with the zeros `make` put there; filling a
      buffer with its own contents changes nothing. */
  lemma FilledLayout(written: seq<uint8>, n: nat)
    ensures |written| >= n ==> Filled(written, n) == written[..n]
    ensures |written| < n ==> Filled(written, n) == written + Zeros(n - |written|)
    ensures Filled([], n) == Zeros(n)
    ensures Filled(Filled(written, n), n) == Filled(written, n)
  {
  }

  /** EnumProcesses(buffer, cb, &cbNeeded): the call's result, the bytes written, cbNeeded. */
  datatype EnumProcessesReply = EnumProcessesReply(call: RawCall, written: seq<uint8>, cbNeeded: uint32)

  /** EnumProcessModules(handle, &hMod, cb, &cbNeeded): the call's result and the first module handle. */
  datatype ModulesReply = ModulesReply(call: RawCall, hMod: uintptr)

  /** GetModuleBaseNameW(handle, hMod, buffer, size): the call's result and the text
      syscall.UTF16ToString makes of the buffer. */
  datatype BaseNameReply = BaseNameReply(call: RawCall, name: string)

  /** The arguments of GetExtendedTcpTable: whether a table buffer is passed, the
      size in *pdwSize, the sort flag, the address family and the table class. */
  datatype TcpTableRequest = TcpTableRequest(buffered: bool, size: uint32, sorted: bool, family: uintptr, tableClass: uintptr)

  /** GetExtendedTcpTable's result, the size written back to *pdwSize and the table bytes written. */
  datatype TcpTableReply = TcpTableReply(call: RawCall, size: uint32, written: seq<uint8>)

  /** The platform entry points bound by init() whose results the code uses, as
      oracles. Each answers a call from its arguments alone: the model takes one
      snapshot of the system. CloseHandle's result is discarded, so it is only
      recorded as a Call. */
  datatype Win32 = Win32(
    enumProcesses: uintptr -> EnumProcessesReply,
    openProcess: (bv32, bool, uint32) -> RawCall,
    enumProcessModules: (uintptr, uintptr) -> ModulesReply,
    getModuleBaseName: (uintptr, uintptr, uintptr) -> BaseNameReply,
    terminateProcess: (uintptr, uintptr) -> RawCall,
    waitForSingleObject: (uintptr, uintptr) -> RawCall,
    getExtendedTcpTable: TcpTableRequest -> TcpTableReply)

  /** A platform call issued on handles, as recorded in a trace. */
  datatype Call =
    | OpenProcess(access: bv32, pid: uint32)
    | EnumProcessModules(handle: uintptr)
    | GetModuleBaseName(handle: uintptr, hMod: uintptr)
    | TerminateProcess(handle: uintptr, exitCode: uintptr)
    | WaitForSingleObject(handle: uintptr, timeout: uintptr)
    | CloseHandle(handle: uintptr)

  /** The number of CloseHandle calls in a trace. */
  function CloseCount(calls: seq<Call>): nat {
    if calls == [] then 0
    else CloseCount(calls[..|calls| - 1]) + (if calls[|calls| - 1].CloseHandle? then 1 else 0)
  }

  lemma CloseCountSnoc(calls: seq<Call>, c: Call)
    ensures CloseCount(calls + [c]) == CloseCount(calls) + (if c.CloseHandle? then 1 else 0)
  {
    assert (calls + [c])[..|calls|] == calls;
  }
}
