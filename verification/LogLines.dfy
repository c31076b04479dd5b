/** The collector's log, line by line, as the host's regular expressions tell the lines
    apart. */
module LogLines {
  /** The printed maps: `@lat_hist`, `@proc_ops` and `@thr_ops` first, then those with two
      and with three integer keys. */
  datatype MapName =
    | LatHist | OpsByProcess | OpsByThread
    | OpCount | ReadCount | WriteCount | BytesSum | LatSum | LatCount
    | ProcBytes | ProcRd | ProcWr | ProcLatSum | ProcLatCnt | ProcSeq | ProcRand
    | ProcBs | ProcQ | ErrCount

  /** The fields of an ERROR_EVENT line. */
  datatype ErrorReport = ErrorReport(
    ts: nat, ctrl: int, qid: int, cid: nat, tag: nat, opcode: nat, nsid: nat,
    status: nat, sct: nat, sc: nat, dnr: nat, more: nat, crd: nat,
    slba: nat, nlb: nat, retries: nat, cached: nat, elapsed: nat)

  /** The fields of a TIMEOUT_EVENT line; `cdw` holds CDW10 to CDW15. */
  datatype TimeoutReport = TimeoutReport(
    ts: nat, ctrl: int, qid: int, tag: nat, opcode: nat, nsid: nat, flags: nat, cdw: seq<nat>, elapsed: nat)

  datatype Line =
    | Scalar2(name: MapName, k1: int, k2: int, value: nat)             // @name[k1, k2]: value
    | Scalar3(name: MapName, k1: int, k2: int, k3: int, value: nat)    // @name[k1, k2, k3]: value
    | ProcOps(ctrl: int, pid: int, comm: string, value: nat)           // @proc_ops[ctrl, pid, comm]: value
    | ThrOps(ctrl: int, pid: int, tid: int, comm: string, value: nat)  // @thr_ops[ctrl, pid, tid, comm]: value
    | HistKey(k1: int, k2: int)                                        // @lat_hist[k1, k2]:
    | BucketRow(lo: nat, hi: nat, value: nat)                          // [lo, hi)   value |@@@   |
    | PointRow(at: nat, value: nat)                                    // [at]       value |@@@   |
    | WideRow(lo: nat, hi: nat, value: nat)                            // the same with a suffix above G
    | ErrorEvent(error: ErrorReport)
    | TimeoutEvent(timeout: TimeoutReport)
    | TickMark                                                         // ---TICK---
    | Other                                                            // blank lines and messages
}
