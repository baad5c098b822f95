# goproc in Dafny

A model of the Windows core of the Go package `proc` (repository eminom/goproc).
The package lists processes and resolves their names, finds processes by name,
terminates a process, and lists the IPv4 TCP connections together with the name
of each owning process.

The model has six modules:

- `Binary` (`binary.dfy`) models Go's fixed-width unsigned integers as range-restricted `int`s. It also holds the byte-order helpers of `encoding/binary` that the core uses.
- `Api` (`api.dfy`) holds:
  - the access-right and wait constants;
  - `doCall`, which classifies an `(r1, lastErr)` pair into `(retval, ok, sysErr)`;
  - the platform entry points bound by `init()`.

  Each entry point whose result the code uses is an oracle: a field of the datatype `Win32` holding a total function from the call's arguments to its result and to the bytes written back. One `Win32` value is one snapshot of the system. `CloseHandle` is different: the code discards its result, so it is only recorded in the call traces. `GetCurrentProcessId` is left out (see below).
- `Netmon` (`netmon.dfy`) models `NetPortInfo` and the two DWORD conversions: fetching a port and translating an IP.
- `Proc` (`proc.dfy`) models:
  - `GetNameForProcess`, `EnumProcess`, `FindProcessesByName`, `FindFirstProcessByName` and `TerminateProc`;
  - for `GetNameForProcess` and `TerminateProc`, the two that open a handle, the trace of the calls issued on it, as a ghost output; the other methods return only their results.
- `NetmonWindows` (`netmon_windows.dfy`) models:
  - the TCP states;
  - the `MIB_TCPTABLE_OWNER_PID` layout, with an encoder proved inverse to the decoder;
  - the size probe and the fetch;
  - `EnumTcpPorts` and `EnumerateTcpPorts`.
- `Seqs` (`seqs.dfy`) holds the loop shape all the enumerations share: each element either adds one mapped value, in order, or is dropped. It also proves the facts about that shape: an order-preserving subsequence, soundness and completeness.

The loops are imperative methods. Each is proved equal to a function of the snapshot (`ProcessList`, `PidsNamed`, `TcpPorts`). The properties of those functions are proved as lemmas.

`doCall` is modelled as written:

- It sets `ok` exactly when `lastErr` is a `syscall.Errno`, whatever its code. The early return for a nonzero code keeps that `ok`. So `ok` does not mean that the call succeeded.
- The checks that do the work are the `0 == handle` and `0 == r1` tests.

`GetNameForProcess` and `TerminateProc` are modelled twice, because each mishandles a null handle (see Findings). The members with the source's names are the corrected versions. `GetNameForProcessAsWritten` and `TerminateProcAsWritten` follow the code. `EnumProcess`, its loop `ResolveListed`, `FindProcessesByName`, `FindFirstProcessByName` and `EnumTcpPorts` call the corrected lookup; "## Left out" says what that changes.

## Model

| member | source | states |
|---|---|---|
| Binary.Uint32OfPutUint32 | netmon.go:30-34 | reading back the four bytes `binary.LittleEndian.PutUint32` wrote gives the value |
| Binary.PutUint32OfUint32 | netmon.go:30-34 | writing the DWORD read from four bytes gives those bytes back |
| Api.AllAccessValue | api_windows.go:8-26 | `PROCESS_ALL_ACCESS` is `0x1FFFFF` |
| Api.VmReadAddsNothing | proc_windows.go:41 | adding `PROCESS_VM_READ` to `PROCESS_ALL_ACCESS` requests nothing more |
| Api.ProcessRightsAreDistinctBits | api_windows.go:11-26 | the 14 process rights are the bits 0..13, distinct, and all inside `PROCESS_ALL_ACCESS` |
| Api.DoCall | api_windows.go:70-79 | `retval` is `r1`; `ok` holds exactly when `lastErr` is an Errno; `sysErr` is its code when `ok` holds and 0 otherwise |
| Api.FilledLayout | netmon_windows.go:103-111 | a zeroed Go buffer of `n` bytes after the platform wrote into it: the first `n` written bytes when at least `n` were written, else the written bytes followed by zeros |
| Netmon.FetchUsesLow16Bits | netmon.go:24-28 | the conversion depends only on the low 16 bits of the DWORD (`uint16(v)`) |
| Netmon.FetchSwapsLowBytes | netmon.go:24-28 | the port is the low two bytes of the field, swapped |
| Netmon.FetchIsInvolution | netmon.go:24-28 | applying the conversion twice gives back the low 16 bits |
| Netmon.StoredPortRoundTrip | netmon.go:24-28 | a port stored in network byte order converts back to itself |
| Netmon.PortExamples | netmon.go:24-28 | stored 0x5000, 0x901F and 0xBB01 are ports 80, 8080 and 443 |
| Netmon.TranslateIPOctets | netmon.go:30-34 | octet i of the address is byte i of the DWORD, least significant first |
| Netmon.TranslateIPOfPacked | netmon.go:30-34 | four octets packed as a little-endian DWORD translate back to the same octets |
| Netmon.TranslateIPInjective | netmon.go:30-34 | distinct DWORDs give distinct addresses |
| Proc.IdleNeverResolves | proc_windows.go:33-36 | PID 0 yields `("", false)` in both versions of the lookup |
| Proc.NullHandleReportedOk | proc_windows.go:40-48 | as written, a null handle with any Errno code yields `("", true)`; the corrected lookup yields `("", false)` |
| Proc.ResolvedMeansOpened | proc_windows.go:33-79 | the corrected lookup succeeds exactly when a non-null handle was opened and `EnumProcessModules` and `GetModuleBaseNameW` both returned ok and nonzero; the name is then the module base name; it differs from the code as written exactly on a null handle with `ok` set |
| Proc.LookupCallsProtocol | proc_windows.go:33-79 | the lookup's calls are empty for PID 0 and open first otherwise; after a successful open they list the modules next, read the base name exactly when the listing succeeded, and close the handle exactly once and last; no other call is issued |
| Proc.GetNameForProcess | proc_windows.go:33-79 | the corrected result; the trace is exactly `LookupCalls`, with its early stops after each failed step |
| Proc.GetNameForProcessAsWritten | proc_windows.go:33-79 | the result as written; the trace is the same `LookupCalls` |
| Proc.ProcessIds | proc_windows.go:81-106 | at most 1024 PIDs are considered: the first `cbNeeded / 4` DWORDs of the 4096-byte buffer |
| Proc.EnumProcess | proc_windows.go:81-118 | the result is `ProcessList`: the considered PIDs that resolve, with their names, in order |
| Proc.ResolveListed | proc_windows.go:108-117 | the loop over the PIDs read from the buffer yields `FilterMap(ids, ProcFilter(os))`: each PID that resolves through the corrected lookup, with its name, in order |
| Proc.DeniedPidListed | proc_windows.go:108-117 | for one listed PID 5 whose open returns a null handle with Errno 5, the corrected list is empty and the list as written is `[("", 5)]` |
| Proc.ProcFilterThenDrop | proc_windows.go:40-48 | per PID, the corrected lookup's entry is the as-written one unless its open gave a null handle with `ok` set, in which case there is none |
| Proc.ProcessListAsWrittenDiffers | proc_windows.go:108-117 | the corrected list is the list `EnumProcess` builds as written with the entries of PIDs whose open gave a null handle with `ok` set removed, the order kept |
| Proc.NullOpenEntries | proc_windows.go:108-117 | as written, every such entry is `("", pid)`, and every considered PID whose open gave a null handle with `ok` set appears as `("", pid)` |
| Proc.EmptyNameFindsNullHandles | proc_windows.go:13-31 | as written, searching the list for the empty name yields every such PID |
| Proc.ProcessListSpec | proc_windows.go:81-118 | the list is an order-preserving subsequence of the PIDs; each entry carries its resolved name; every PID that resolves appears; no entry has PID 0 |
| Proc.EnumStatusIgnored | proc_windows.go:90-100 | the outcome of the `EnumProcesses` call does not change the list, since only `cbNeeded` and the buffer are used |
| Proc.ToLower | proc_windows.go:16 | lower-casing keeps the length |
| Proc.PidsNamedSpec | proc_windows.go:23-31 | the matching PIDs are an order-preserving subsequence of the list; each comes from an entry whose name equals the searched name after lower-casing; every such entry is reported |
| Proc.FindProcessesByName | proc_windows.go:23-31 | the result is `PidsNamed(ProcessList(os), name)` |
| Proc.FindFirstProcessByName | proc_windows.go:13-21 | the result is the first PID `FindProcessesByName` would return, or 0; it is 0 exactly when no listed process has the name |
| Proc.FirstNamed | proc_windows.go:15-20 | the search loop over the snapshot returns the first match, or 0 exactly when nothing matches |
| Proc.TerminateProtocol | proc_windows.go:120-148 | the open comes first and alone on failure; otherwise `TerminateProcess(handle, 127)` follows; the infinite wait happens exactly when termination succeeded; the handle is closed once and last; only a wait that went through yields a wait report |
| Proc.NullHandleTerminated | proc_windows.go:121-132 | as written, a null handle with any Errno code leads to `TerminateProcess(0, 127)` and `CloseHandle(0)`; the corrected version reports `OpenFailed` with that code after the open alone |
| Proc.TerminateAsWrittenAgrees | proc_windows.go:121-130 | the two versions agree unless the open returns a null handle with `ok` set |
| Proc.TerminateProc | proc_windows.go:120-148 | the report and trace are those of the corrected `Terminate` |
| Proc.TerminateProcAsWritten | proc_windows.go:120-148 | the report and trace are those of `TerminateAsWritten` |
| Proc.Finish | proc_windows.go:130-147 | after the open: terminate, wait only if that succeeded, compare with `WAIT_OBJECT_0`, and the deferred close |
| NetmonWindows.DecodeTable | netmon_windows.go:58-77 | a table decodes exactly when the buffer holds the header and the `dwNumEntries` rows it announces; row i is then the six little-endian DWORDs at `4 + 24 * i` |
| NetmonWindows.DecodeEncodedRow | netmon_windows.go:58-65 | decoding an encoded `MIB_TCPROW_OWNER_PID` gives it back |
| NetmonWindows.DecodeEncodedTable | netmon_windows.go:58-77 | decoding an encoded `MIB_TCPTABLE_OWNER_PID` gives back exactly its rows |
| NetmonWindows.RowSpansAsWritten | netmon_windows.go:117-125 | the slice the code lays over the buffer spans `dwNumEntries` rows, whatever the buffer's length |
| NetmonWindows.UncheckedCountOverruns | netmon_windows.go:117-125 | a 4-byte table announcing one row makes the unchecked slice reach past the buffer, while `DecodeTable` rejects it |
| NetmonWindows.FetchedRows | netmon_windows.go:91-125 | rows are obtained exactly when the probe is ok, the fetch is ok with status 0, and the buffer decodes |
| NetmonWindows.TcpPorts | netmon_windows.go:85-143 | a failed probe or a failed fetch yields no records; there are never more records than rows |
| NetmonWindows.EnumTcpPorts | netmon_windows.go:85-143 | the result is `TcpPorts(os, portState)` |
| NetmonWindows.ReportRows | netmon_windows.go:125-141 | the loop over the rows yields `FilterMap(rows, TcpFilter(os, portState))` |
| NetmonWindows.EnumerateTcpPorts | netmon_windows.go:81-83 | the result is `TcpPorts(os, NONE)` |
| NetmonWindows.TcpRowsSpec | netmon_windows.go:126-141 | the records are an order-preserving subsequence of the rows; each comes from a row that passes the state filter and whose owner resolves to a non-empty name; each carries that name, the owner PID and the translated addresses and ports; every passing row is reported |
| NetmonWindows.TcpPortsAsWrittenAgree | netmon_windows.go:126-141 | the records built through the as-written lookup are the same as through the corrected one, for every snapshot and state filter |
| NetmonWindows.StateFilter | netmon_windows.go:127-129 | with a state filter, only rows in that state pass; with `NONE`, passing depends on the owner alone |
| NetmonWindows.ScenarioDecodes | netmon_windows.go:117-125 | a two-row table decodes to its rows |
| NetmonWindows.ScenarioListening | netmon_windows.go:126-141 | filtering that table on `LISTENING` gives the one listener, PID 200 on 0.0.0.0:8080 |
| NetmonWindows.ScenarioUnfiltered | netmon_windows.go:126-141 | with `NONE`, both connections are reported in order: PID 100 from 127.0.0.1:80 to 93.184.216.34:443, then PID 200 on 0.0.0.0:8080 with remote 0.0.0.0:0 |

## Left out

- Logging (`log.Printf`) is left out. `TerminateProc` returns its report instead of logging it.
- `init()` loads DLLs and looks up their entry points. It is replaced by the `Win32` oracle.
- `GetProcessID` is left out, because it only forwards `GetCurrentProcessId`.
- UDP is left out: the `UDPPortInfo` type and the unused `nGetExtendedUdpTable` binding.
- `syscall.UTF16ToString` is not modelled. The platform's reply for the name is taken to be that string already.
- Proc.ToLower: it lowers ASCII letters only. `strings.ToLower` applies the full Unicode case mapping.
- The model takes a single snapshot: every call answers from its arguments alone. So it does not capture processes starting or ending between calls, nor a table that changes between the probe and the fetch.
- `WaitForSingleObject(handle, INFINITE)` may block forever. The model takes its result from the oracle.
- `net.IP` is the 16-byte IPv4-in-IPv6 form built by `net.IPv4`. The model keeps the four octets.
- `ProcInfo` is modelled from its use at proc_windows.go:111-114, because the file that declares it is not part of this model.
- Paths that panic or read outside the buffer are modelled as returning no records, and the model proves nothing about them:
  - EnumTcpPorts: the size probe reports 0 bytes, so `&buffer[0]` panics in the code;
  - EnumTcpPorts: the buffer fetched is shorter than the `dwNumEntries` rows it announces;
  - EnumProcess: `cbNeeded / 4` exceeds the 1024 entries of the buffer.
- Both lookups go through the corrected `GetNameForProcess`:
  - Proc.ResolveListed: it drops the `("", pid)` entry that the loop as written appends for a PID whose open returned a null handle with `ok` set. For one such PID 5 the corrected list is `[]` and the list as written is `[("", 5)]` (`Proc.DeniedPidListed`).
  - EnumProcess and its loop: as written, the list also holds `("", pid)` entries for PIDs whose open returned a null handle with `ok` set (`Proc.ProcessListAsWritten`, see Findings). This reaches `FindProcessesByName("")`, which as written returns every such PID (`Proc.EmptyNameFindsNullHandles`). It also reaches `FindFirstProcessByName("")`, which as written returns the first entry with an empty name; that is such a PID unless a resolved process has an empty base name. The methods are modelled on the corrected list only.
  - EnumTcpPorts: the record requires a non-empty name, so the two versions give the same records (`NetmonWindows.TcpPortsAsWrittenAgree`).
- Test files are not modelled.

## Findings

| source | as written | input that shows it | evidently intended | confidence | as-written member | corrected member |
|---|---|---|---|---|---|---|
| proc_windows.go:40-48 | on `!ok \|\| 0 == handle` the function returns with the `ok` doCall produced, which is true for any Errno | OpenProcess returns handle 0 with `ERROR_ACCESS_DENIED` (Errno 5) | report failure, `("", false)` | high; not executed | Proc.GetNameForProcessAsWritten, Proc.NullHandleReportedOk, Proc.NullOpenEntries, Proc.EmptyNameFindsNullHandles | Proc.GetNameForProcess, Proc.ResolvedMeansOpened, Proc.ProcessListAsWrittenDiffers |
| proc_windows.go:121-130 | only `ok` is checked after OpenProcess, so a null handle is used | OpenProcess returns handle 0 with Errno 5 | stop after a failed open, as `GetNameForProcess` does with `0 == handle` | high; not executed | Proc.TerminateProcAsWritten, Proc.NullHandleTerminated | Proc.TerminateProc, Proc.TerminateProtocol |
