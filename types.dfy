/** Values shared by the remote-mailbox POP3 dispatcher model (src/rpop3.c). */
module Pop3Types {

  datatype Option<T> = None | Some(value: T)

  /** The session state: the Pop3State values of pop.h that rpop3.c dispatches on,
      plus the three pseudo-states TOP, TOP_RECV and IDLE that rpop3.c places
      above N_POP3_STATE. */
  datatype State =
    | Ready | Greeting | Stls
    | GetAuthUser | GetAuthPass | GetAuthApop
    | GetRangeStat | GetRangeLast | GetRangeUidl | GetRangeUidlRecv
    | GetSizeList | GetSizeListRecv
    | Delete | Logout | Done | Error
    | Top | TopRecv | Idle

  /** The Pop3ErrorValue codes the handlers store or compare against. */
  datatype ErrorValue = PsSuccess | PsNotSupported | PsSocket | PsAuthFail | PsProtocol | PsLockBusy

  /** Transport-security mode of an account (SSLType). */
  datatype SslType = SslNone | SslTunnel | SslStartTls

  /** The two account preferences the dispatcher consults. */
  datatype Prefs = Prefs(sslPop: SslType, useApopAuth: bool)

  /** One command line written to the server. */
  datatype Command =
    | CmdStls | CmdUser | CmdPass | CmdApop | CmdStat
    | CmdUidl | CmdLast | CmdList
    | CmdTop(n: int)    // TOP n 0
    | CmdDele(n: int)   // DELE n
    | CmdQuit

  /** recv_time of a message record: untouched, or the deletion marker. */
  datatype RecvTime = RecvTimeUnset | RecvTimeDelete

  /** The part of a 1-based message record the dispatcher writes. */
  datatype MsgRecord = MsgRecord(deleted: bool, recvTime: RecvTime)

  const FreshRecord := MsgRecord(false, RecvTimeUnset)

  /** The parsed header block of one TOP reply. */
  datatype Header = Header(subject: Option<string>, from: Option<string>, dateT: int, date: Option<string>)

  /** One row of the message list: number, subject, sender, display date, deletion mark. */
  datatype Row = Row(number: int, subject: string, from: string, date: string, deleted: bool)

  /** The collaborators of the dispatcher that live outside this model:
      the reply classifier, the TLS handshake, the STAT and LAST reply parsers
      (None when the parser reports failure) and the local-time renderer. */
  datatype Env = Env(
    prefs: Prefs,
    ok: (State, string) -> ErrorValue,
    stlsOk: bool,
    statRecv: string -> Option<int>,
    lastRecv: string -> Option<int>,
    localtime: int -> string)

  /** Everything the handlers read or write: the session fields and the window fields. */
  datatype Snapshot = Snapshot(
    state: State,
    count: int,
    curMsg: int,
    errorVal: ErrorValue,
    msg: seq<MsgRecord>,
    outbox: seq<Command>,
    rows: seq<Row>,
    cancelled: bool,
    finished: bool,
    deleteArray: Option<seq<int>>,
    deleteCur: int)

  /** A handler's new state together with the value it returns to the session layer. */
  datatype Outcome = Outcome(next: Snapshot, ret: int)

  /** What can happen to a session: a status line, the end of a buffered block
      (with the block parser's verdict), the end of a TOP block (with its parsed
      header), a click on Delete (confirmed or not, with the selected row
      positions) and a click on Close. */
  datatype Event =
    | Line(text: string)
    | Block(parsedOk: bool)
    | File(header: Header)
    | DeleteClicked(confirmed: bool, selection: seq<nat>)
    | CloseClicked
}
