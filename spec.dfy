/** The dispatcher of src/rpop3.c as functions on a Snapshot: one function per
    session handler and per button, and the event-driven run they make up. */
module Rpop3Spec {
  import opened Pop3Types
  import Pop3Reply

  /** The session and window as rpop3_account leaves them before connecting. */
  function Init(): Snapshot {
    Snapshot(Ready, 0, 0, PsSuccess, [], [], [], false, false, None, 0)
  }

  // ---------------------------------------------------------------------
  // The pop.c steps the handlers call (abstract: set state, send a command)
  // ---------------------------------------------------------------------

  /** pop3_*_send: enter the matching state and write one command. */
  function Send(s: Snapshot, st: State, c: Command): Snapshot {
    s.(state := st, outbox := s.outbox + [c])
  }

  /** pop3_logout_send */
  function LogoutSend(s: Snapshot): Snapshot {
    Send(s, Logout, CmdQuit)
  }

  /** The APOP-or-USER choice made after the greeting or after STLS. */
  function AuthSend(prefs: Prefs, s: Snapshot): Snapshot {
    if prefs.useApopAuth then Send(s, GetAuthApop, CmdApop) else Send(s, GetAuthUser, CmdUser)
  }

  /** pop3_getrange_stat_recv, given the parsed count: it allocates the
      records 0..count and starts at message 1 when there are messages. */
  function StatRecv(s: Snapshot, n: int): Snapshot {
    if n > 0 then s.(count := n, msg := FreshRecords(n + 1), curMsg := 1)
    else s.(count := n)
  }

  /** n records with no deletion mark and no receive time. */
  function FreshRecords(n: nat): (r: seq<MsgRecord>)
    ensures |r| == n
  {
    seq(n, _ => FreshRecord)
  }

  /** After the greeting: STLS first if the account asks for STARTTLS, else the
      APOP-or-USER choice. */
  function GreetingNext(prefs: Prefs, s: Snapshot): Snapshot {
    if prefs.sslPop == SslStartTls then Send(s, Stls, CmdStls) else AuthSend(prefs, s)
  }

  /** After LAST: LIST if cur_msg is positive, otherwise QUIT. */
  function AfterLast(s: Snapshot): Snapshot {
    if s.curMsg > 0 then Send(s, GetSizeList, CmdList) else LogoutSend(s)
  }

  // ---------------------------------------------------------------------
  // The helpers of src/rpop3.c
  // ---------------------------------------------------------------------

  /** rpop3_top_send */
  function TopSend(s: Snapshot): (t: Snapshot)
    ensures t.state == Top && t.outbox == s.outbox + [CmdTop(s.curMsg)]
    ensures t.(state := s.state, outbox := s.outbox) == s
  {
    Send(s, Top, CmdTop(s.curMsg))
  }

  /** rpop3_delete_send: DELE the queue entry at delete_cur, or fail if there
      is no queue or delete_cur is past its end. */
  function DeleteSend(s: Snapshot): (o: Outcome)
    ensures o.ret == 0 <==> (s.deleteArray.Some? && 0 <= s.deleteCur < |s.deleteArray.value|)
    ensures o.ret == 0 ==>
              o.next.state == Delete && o.next.curMsg == s.deleteArray.value[s.deleteCur] &&
              o.next.outbox == s.outbox + [CmdDele(s.deleteArray.value[s.deleteCur])] &&
              o.next.(state := s.state, curMsg := s.curMsg, outbox := s.outbox) == s
    ensures o.ret != 0 ==> o.next == s
  {
    match s.deleteArray
    case None => Outcome(s, -1)
    case Some(a) =>
      if 0 <= s.deleteCur < |a| then
        var n := a[s.deleteCur];
        Outcome(Send(s.(curMsg := n), Delete, CmdDele(n)), 0)
      else Outcome(s, -1)
  }

  /** rpop3_delete_recv: mark the record of the acknowledged DELE. */
  function DeleteRecv(s: Snapshot): (t: Snapshot)
    requires 0 <= s.curMsg < |s.msg|
    ensures |t.msg| == |s.msg| && t.msg[s.curMsg] == MsgRecord(true, RecvTimeDelete)
    ensures t.(msg := s.msg) == s
  {
    s.(msg := s.msg[s.curMsg := s.msg[s.curMsg].(recvTime := RecvTimeDelete, deleted := true)])
  }

  /** No record but cur_msg's is touched by rpop3_delete_recv. */
  lemma DeleteRecvOthers(s: Snapshot)
    requires 0 <= s.curMsg < |s.msg|
    ensures forall i :: 0 <= i < |s.msg| && i != s.curMsg ==> DeleteRecv(s).msg[i] == s.msg[i]
  {
  }

  /** The default shown for a missing Subject header. */
  const NoSubject := "(No Subject)"
  /** The default shown for a missing From header. */
  const NoFrom := "(No From)"
  /** The default shown when the header has no date. */
  const NoDate := "(No Date)"

  /** The row rpop3_top_recv appends for message n: the parsed fields, or
      their defaults, and no deletion mark. */
  function HeaderRow(env: Env, n: int, h: Header): (r: Row)
    ensures r.number == n && !r.deleted
    ensures h.subject.None? ==> r.subject == NoSubject
    ensures h.subject.Some? ==> r.subject == h.subject.value
    ensures h.from.None? ==> r.from == NoFrom
    ensures h.from.Some? ==> r.from == h.from.value
    ensures h.dateT != 0 ==> r.date == env.localtime(h.dateT)
    ensures h.dateT == 0 && h.date.Some? ==> r.date == h.date.value
    ensures h.dateT == 0 && h.date.None? ==> r.date == NoDate
  {
    var subject := if h.subject.Some? then h.subject.value else NoSubject;
    var from := if h.from.Some? then h.from.value else NoFrom;
    var date :=
      if h.dateT != 0 then env.localtime(h.dateT)
      else if h.date.Some? then h.date.value
      else NoDate;
    Row(n, subject, from, date, false)
  }

  // ---------------------------------------------------------------------
  // The session handlers of src/rpop3.c
  // ---------------------------------------------------------------------

  /** What the DELETE branch needs: a queue, and cur_msg naming a record. */
  predicate HandlerReady(s: Snapshot) {
    s.state == Delete ==> s.deleteArray.Some? && 0 <= s.curMsg < |s.msg|
  }

  /** The state switch of rpop3_session_recv_msg, given the classifier's
      verdict v and the reply body. */
  function Dispatch(env: Env, s: Snapshot, v: ErrorValue, body: string): (o: Outcome)
    requires HandlerReady(s)
    ensures o.ret == 0 || o.ret == -1
    ensures Closing(s.state) ==>
              (o.next.state == Done || o.next.state == Error) && o.next.outbox == s.outbox
    ensures o.next.cancelled == s.cancelled && o.next.finished == s.finished
  {
    match s.state
    case Ready => Outcome(GreetingNext(env.prefs, s), 0)
    case Greeting => Outcome(GreetingNext(env.prefs, s), 0)
    case Stls =>
      if !env.stlsOk then Outcome(s, -1) else Outcome(AuthSend(env.prefs, s), 0)
    case GetAuthUser => Outcome(Send(s, GetAuthPass, CmdPass), 0)
    case GetAuthPass => Outcome(Send(s, GetRangeStat, CmdStat), 0)
    case GetAuthApop => Outcome(Send(s, GetRangeStat, CmdStat), 0)
    case GetRangeStat => (
      match env.statRecv(body)
      case None => Outcome(s, -1)
      case Some(n) =>
        var s1 := StatRecv(s, n);
        Outcome(if s1.count > 0 then Send(s1, GetRangeUidl, CmdUidl) else LogoutSend(s1), 0))
    case GetRangeLast =>
      if v == PsNotSupported then Outcome(AfterLast(s.(errorVal := PsSuccess)), 0)
      else (
        match env.lastRecv(body)
        case None => Outcome(s, -1)
        case Some(m) => Outcome(AfterLast(s.(curMsg := m)), 0))
    case GetRangeUidl =>
      if v == PsNotSupported then Outcome(Send(s.(errorVal := PsSuccess), GetRangeLast, CmdLast), 0)
      else Outcome(s.(state := GetRangeUidlRecv), 0)
    case GetSizeList => Outcome(s.(state := GetSizeListRecv), 0)
    case Top => Outcome(s.(state := TopRecv), 0)
    case Delete =>
      var s1 := DeleteRecv(s);
      if s.deleteCur + 1 < |s.deleteArray.value| then DeleteSend(s1.(deleteCur := s.deleteCur + 1))
      else Outcome(s1.(deleteArray := None, deleteCur := 0, state := Idle), 0)
    case Logout => Outcome(s.(state := Done), if v == PsSuccess then 0 else -1)
    case _ => Outcome(s, -1)
  }

  /** A verdict of pop3_ok that ends the session. */
  predicate Fatal(v: ErrorValue) {
    v != PsSuccess && v != PsNotSupported
  }

  /** rpop3_session_recv_msg: one single-line reply. Outside the two block
      states the line is classified first: a fatal verdict moves to ERROR;
      otherwise the status is stripped and the body dispatched. */
  function RecvMsg(env: Env, s: Snapshot, line: string): (o: Outcome)
    requires HandlerReady(s)
    ensures o.ret == 0 || o.ret == -1
    ensures s.state != GetRangeUidlRecv && s.state != GetSizeListRecv && Fatal(env.ok(s.state, line)) ==>
              o.next == s.(errorVal := env.ok(s.state, line), state := Error) && o.ret == -1
    ensures Closing(s.state) ==>
              (o.next.state == Done || o.next.state == Error) && o.next.outbox == s.outbox
    ensures o.next.cancelled == s.cancelled && o.next.finished == s.finished
  {
    if s.state != GetRangeUidlRecv && s.state != GetSizeListRecv then
      var v := env.ok(s.state, line);
      var s1 := if v != PsSuccess then s.(errorVal := v) else s;
      if Fatal(v) then Outcome(s1.(state := Error), -1)
      else Dispatch(env, s1, v, Pop3Reply.Body(line))
    else
      Dispatch(env, s, PsSuccess, line)
  }

  /** QUIT was sent, or the session is over. */
  predicate Closing(st: State) {
    st == Logout || st == Done || st == Error
  }

  /** rpop3_session_recv_data_finished: the end of a UIDL or LIST block, with
      the block parser's verdict. */
  function RecvDataFinished(s: Snapshot, parsedOk: bool): (o: Outcome)
    ensures o.ret == 0 <==> parsedOk && (s.state == GetRangeUidlRecv || s.state == GetSizeListRecv)
    ensures o.ret != 0 ==> o.next == s
    ensures o.ret == 0 ==> |o.next.outbox| == |s.outbox| + 1 && o.next.outbox[..|s.outbox|] == s.outbox
    ensures o.ret == 0 && s.cancelled ==> o.next.state == Logout && o.next.outbox[|s.outbox|] == CmdQuit
  {
    match s.state
    case GetRangeUidlRecv =>
      if !parsedOk then Outcome(s, -1)
      else if s.cancelled then Outcome(LogoutSend(s), 0)
      else Outcome(Send(s, GetSizeList, CmdList), 0)
    case GetSizeListRecv =>
      if !parsedOk then Outcome(s, -1)
      else
        var s1 := s.(curMsg := 1);
        if s1.cancelled || s1.count == 0 then Outcome(LogoutSend(s1), 0) else Outcome(TopSend(s1), 0)
    case _ => Outcome(s, -1)
  }

  /** rpop3_session_recv_data_as_file_finished: the end of a TOP block, with
      its parsed header. The row is added first; then QUIT if cancelled, the
      next TOP while messages remain, or IDLE. */
  function RecvDataAsFileFinished(env: Env, s: Snapshot, h: Header): (o: Outcome)
    ensures o.ret == 0 <==> s.state == TopRecv
    ensures o.ret != 0 ==> o.next == s
    ensures o.ret == 0 ==> o.next.rows == s.rows + [HeaderRow(env, s.curMsg, h)]
    ensures o.ret == 0 && s.cancelled ==> o.next.state == Logout && o.next.outbox == s.outbox + [CmdQuit]
    ensures o.ret == 0 && !s.cancelled && s.curMsg >= s.count ==>
              o.next.state == Idle && o.next.outbox == s.outbox
  {
    match s.state
    case TopRecv =>
      var s1 := s.(rows := s.rows + [HeaderRow(env, s.curMsg, h)]);
      if s1.cancelled then Outcome(LogoutSend(s1), 0)
      else if s1.curMsg < s1.count then Outcome(TopSend(s1.(curMsg := s1.curMsg + 1)), 0)
      else Outcome(s1.(state := Idle), 0)
    case _ => Outcome(s, -1)
  }

  // ---------------------------------------------------------------------
  // The two buttons
  // ---------------------------------------------------------------------

  /** The rows after marking and the deletion queue built so far. */
  datatype Marked = Marked(rows: seq<Row>, queue: seq<int>)

  /** One selected row: queued and marked unless it is already marked. */
  function QueueRow(m: Marked, p: nat): Marked
    requires p < |m.rows|
  {
    if m.rows[p].deleted then m
    else Marked(m.rows[p := m.rows[p].(deleted := true)], m.queue + [m.rows[p].number])
  }

  /** Every selected position names a row. */
  predicate InRows(sel: seq<nat>, rows: seq<Row>) {
    forall k :: 0 <= k < |sel| ==> sel[k] < |rows|
  }

  /** The loop of rpop3_delete over the selected rows, in selection order. */
  function Queue(rows: seq<Row>, sel: seq<nat>): (m: Marked)
    requires InRows(sel, rows)
    ensures |m.rows| == |rows|
  {
    if sel == [] then Marked(rows, [])
    else QueueRow(Queue(rows, sel[..|sel| - 1]), sel[|sel| - 1])
  }

  /** Rows numbered 1, 2, ... in order, as the header loop adds them. */
  predicate NumberedFromOne(rows: seq<Row>) {
    forall i :: 0 <= i < |rows| ==> rows[i].number == i + 1
  }

  /** The selection without its last position still names rows. */
  lemma InRowsInit(rows: seq<Row>, sel: seq<nat>)
    requires InRows(sel, rows) && sel != []
    ensures InRows(sel[..|sel| - 1], rows)
    ensures forall x :: x in sel <==> x in sel[..|sel| - 1] || x == sel[|sel| - 1]
  {
    var sel0 := sel[..|sel| - 1];
    assert sel == sel0 + [sel[|sel| - 1]];
    forall k | 0 <= k < |sel0| ensures sel0[k] < |rows| {
      assert sel0[k] == sel[k];
    }
  }

  /** The loop of rpop3_delete marks exactly the selected rows. */
  lemma {:induction false} QueueMarks(rows: seq<Row>, sel: seq<nat>)
    requires InRows(sel, rows)
    ensures var m := Queue(rows, sel);
      forall i :: 0 <= i < |rows| ==> m.rows[i] == rows[i].(deleted := rows[i].deleted || i in sel)
  {
    if sel != [] {
      InRowsInit(rows, sel);
      QueueMarks(rows, sel[..|sel| - 1]);
    }
  }

  /** Each queued number names a selected row that was not marked. */
  lemma {:induction false} QueueEntries(rows: seq<Row>, sel: seq<nat>)
    requires InRows(sel, rows) && NumberedFromOne(rows)
    ensures var q := Queue(rows, sel).queue;
      forall j :: 0 <= j < |q| ==> 1 <= q[j] <= |rows| && q[j] - 1 in sel && !rows[q[j] - 1].deleted
  {
    if sel != [] {
      InRowsInit(rows, sel);
      QueueEntries(rows, sel[..|sel| - 1]);
      QueueMarks(rows, sel[..|sel| - 1]);
    }
  }

  /** No number is queued twice. */
  lemma {:induction false} QueueDistinct(rows: seq<Row>, sel: seq<nat>)
    requires InRows(sel, rows) && NumberedFromOne(rows)
    ensures var q := Queue(rows, sel).queue;
      forall j, k :: 0 <= j < k < |q| ==> q[j] != q[k]
  {
    if sel != [] {
      var sel0 := sel[..|sel| - 1];
      var p := sel[|sel| - 1];
      InRowsInit(rows, sel);
      QueueDistinct(rows, sel0);
      var m0 := Queue(rows, sel0);
      if !m0.rows[p].deleted {
        QueueEntries(rows, sel0);
        QueueMarks(rows, sel0);
        forall j | 0 <= j < |m0.queue| ensures m0.queue[j] != p + 1 {
          assert m0.rows[m0.queue[j] - 1].deleted;
        }
      }
    }
  }

  /** Every selected row that was not marked is queued. */
  lemma {:induction false} QueueComplete(rows: seq<Row>, sel: seq<nat>)
    requires InRows(sel, rows) && NumberedFromOne(rows)
    ensures var q := Queue(rows, sel).queue;
      forall i :: 0 <= i < |rows| && i in sel && !rows[i].deleted ==> i + 1 in q
  {
    if sel != [] {
      var sel0 := sel[..|sel| - 1];
      var p := sel[|sel| - 1];
      InRowsInit(rows, sel);
      QueueComplete(rows, sel0);
      QueueMarks(rows, sel0);
    }
  }

  /** The numbers of the selected rows that were not marked, each row at its
      first selection, in selection order. */
  function Unmarked(rows: seq<Row>, sel: seq<nat>): seq<int>
    requires InRows(sel, rows)
  {
    if sel == [] then []
    else
      var sel0 := sel[..|sel| - 1];
      var p := sel[|sel| - 1];
      InRowsInit(rows, sel);
      Unmarked(rows, sel0) + (if !rows[p].deleted && p !in sel0 then [rows[p].number] else [])
  }

  /** The queue is the selection filtered to rows not yet marked, in the
      order the rows were selected: the first DELE goes to the first such row. */
  lemma {:induction false} QueueOrder(rows: seq<Row>, sel: seq<nat>)
    requires InRows(sel, rows)
    ensures Queue(rows, sel).queue == Unmarked(rows, sel)
  {
    if sel != [] {
      var sel0 := sel[..|sel| - 1];
      InRowsInit(rows, sel);
      QueueOrder(rows, sel0);
      QueueMarks(rows, sel0);
    }
  }

  /** rpop3_delete: only when IDLE and confirmed; builds the queue from the
      selection and starts DELE when the queue is nonempty. */
  function DeleteButton(s: Snapshot, confirmed: bool, sel: seq<nat>): (t: Snapshot)
    requires InRows(sel, s.rows)
    ensures s.state != Idle || !confirmed ==> t == s
    ensures s.state == Idle && confirmed ==>
      var m := Queue(s.rows, sel);
      && (|m.queue| > 0 <==> t.outbox != s.outbox)
      && (|m.queue| > 0 ==>
            t == s.(rows := m.rows, deleteArray := Some(m.queue), deleteCur := 0, curMsg := m.queue[0],
                    state := Delete, outbox := s.outbox + [CmdDele(m.queue[0])]))
      && (|m.queue| == 0 ==> t == s.(rows := m.rows))
  {
    if s.state != Idle || !confirmed then s
    else
      var m := Queue(s.rows, sel);
      if |m.queue| > 0 then DeleteSend(s.(rows := m.rows, deleteArray := Some(m.queue), deleteCur := 0)).next
      else s.(rows := m.rows)
  }

  /** rpop3_close. The guard "state != DONE || state != ERROR" holds for
      every state, so outside IDLE the session is always marked cancelled. */
  function CloseButton(s: Snapshot): (t: Snapshot)
    ensures t.finished
    ensures s.state == Idle ==> t == LogoutSend(s.(finished := true))
    ensures s.state != Idle ==> t == s.(finished := true, cancelled := true)
  {
    var s1 := s.(finished := true);
    if s1.state == Idle then LogoutSend(s1)
    else if s1.state != Done || s1.state != Error then s1.(cancelled := true)
    else s1
  }

  // ---------------------------------------------------------------------
  // Runs
  // ---------------------------------------------------------------------

  /** An event can be delivered: the DELETE branch has its queue, and a
      selection names rows that exist. */
  predicate Enabled(s: Snapshot, e: Event) {
    match e
    case Line(_) => HandlerReady(s)
    case DeleteClicked(_, sel) => InRows(sel, s.rows)
    case _ => true
  }

  /** One event. */
  function Step(env: Env, s: Snapshot, e: Event): Snapshot
    requires Enabled(s, e)
  {
    match e
    case Line(text) => RecvMsg(env, s, text).next
    case Block(parsedOk) => RecvDataFinished(s, parsedOk).next
    case File(h) => RecvDataAsFileFinished(env, s, h).next
    case DeleteClicked(confirmed, sel) => DeleteButton(s, confirmed, sel)
    case CloseClicked => CloseButton(s)
  }

  /** A sequence of events; one that cannot be delivered is dropped. */
  function Run(env: Env, s: Snapshot, evs: seq<Event>): Snapshot
    decreases |evs|
  {
    if evs == [] then s
    else Run(env, if Enabled(s, evs[0]) then Step(env, s, evs[0]) else s, evs[1..])
  }
}
