/** The two objects src/rpop3.c updates in place: the POP3 session and the
    remote-mailbox window. Every method is proved to leave them exactly as the
    matching function of Rpop3Spec describes. */
module Rpop3 {
  import opened Pop3Types
  import Pop3Reply
  import opened Rpop3Spec

  /** The fields of a Pop3Session that the dispatcher reads and writes. */
  class Pop3Session {
    const prefs: Prefs
    var state: State
    var count: int
    var curMsg: int
    var errorVal: ErrorValue
    /** The message records, indexed 1..count; index 0 is unused. */
    var msg: array<MsgRecord>
    /** The commands pop3_gen_send has written, oldest first. */
    var outbox: seq<Command>

    constructor (prefs: Prefs)
      ensures this.prefs == prefs && state == Ready && count == 0 && curMsg == 0
      ensures errorVal == PsSuccess && msg.Length == 0 && outbox == []
    {
      this.prefs := prefs;
      state := Ready;
      count := 0;
      curMsg := 0;
      errorVal := PsSuccess;
      msg := new MsgRecord[0];
      outbox := [];
    }

    /** pop3_*_send: enter the matching state and write one command. */
    method Send(st: State, c: Command)
      modifies this
      ensures state == st && outbox == old(outbox) + [c]
      ensures count == old(count) && curMsg == old(curMsg) && errorVal == old(errorVal)
      ensures msg == old(msg)
    {
      state := st;
      outbox := outbox + [c];
    }

    /** pop3_getrange_stat_recv once the reply is parsed: a positive count
        allocates records 0..count and starts at message 1. */
    method StatRecv(n: int)
      modifies this
      ensures count == n && state == old(state) && errorVal == old(errorVal) && outbox == old(outbox)
      ensures n > 0 ==> fresh(msg) && msg[..] == FreshRecords(n + 1) && curMsg == 1
      ensures n <= 0 ==> msg == old(msg) && curMsg == old(curMsg)
    {
      count := n;
      if n > 0 {
        msg := new MsgRecord[n + 1](_ => FreshRecord);
        curMsg := 1;
      }
    }
  }

  /** The remote-mailbox window: the header list and the deletion queue. */
  class RPop3Window {
    const session: Pop3Session
    /** The list store: one row per retrieved header. */
    var rows: seq<Row>
    var cancelled: bool
    var finished: bool
    var deleteArray: Option<seq<int>>
    var deleteCur: int

    constructor (session: Pop3Session)
      ensures this.session == session && rows == [] && !cancelled && !finished
      ensures deleteArray == None && deleteCur == 0
    {
      this.session := session;
      rows := [];
      cancelled := false;
      finished := false;
      deleteArray := None;
      deleteCur := 0;
    }

    /** The session and window fields as one value. */
    function Snap(): Snapshot
      reads this, session, session.msg
    {
      Snapshot(session.state, session.count, session.curMsg, session.errorVal, session.msg[..],
               session.outbox, rows, cancelled, finished, deleteArray, deleteCur)
    }

    /** rpop3_top_send */
    method TopSend()
      modifies session
      ensures Snap() == Rpop3Spec.TopSend(old(Snap()))
    {
      session.Send(Top, CmdTop(session.curMsg));
    }

    /** rpop3_top_recv: append the row for the header of message cur_msg. */
    method TopRecv(env: Env, h: Header)
      modifies this
      ensures Snap() == old(Snap()).(rows := old(rows) + [HeaderRow(env, session.curMsg, h)])
    {
      var subject := if h.subject.Some? then h.subject.value else NoSubject;
      var from := if h.from.Some? then h.from.value else NoFrom;
      var date;
      if h.dateT != 0 {
        date := env.localtime(h.dateT);
      } else if h.date.Some? {
        date := h.date.value;
      } else {
        date := NoDate;
      }
      rows := rows + [Row(session.curMsg, subject, from, date, false)];
    }

    /** rpop3_delete_send */
    method DeleteSend() returns (ret: int)
      modifies session
      ensures Snap() == Rpop3Spec.DeleteSend(old(Snap())).next && ret == Rpop3Spec.DeleteSend(old(Snap())).ret
    {
      if deleteArray.None? {
        return -1;
      }
      if !(0 <= deleteCur < |deleteArray.value|) {
        return -1;
      }
      session.curMsg := deleteArray.value[deleteCur];
      session.Send(Pop3Types.Delete, CmdDele(session.curMsg));
      ret := 0;
    }

    /** rpop3_delete_recv */
    method DeleteRecv()
      requires 0 <= session.curMsg < session.msg.Length
      modifies session.msg
      ensures Snap() == Rpop3Spec.DeleteRecv(old(Snap()))
    {
      session.msg[session.curMsg] := session.msg[session.curMsg].(recvTime := RecvTimeDelete, deleted := true);
    }

    /** The APOP-or-USER choice. */
    method AuthSend()
      modifies session
      ensures Snap() == Rpop3Spec.AuthSend(session.prefs, old(Snap()))
    {
      if session.prefs.useApopAuth {
        session.Send(GetAuthApop, CmdApop);
      } else {
        session.Send(GetAuthUser, CmdUser);
      }
    }

    /** The DELETE branch of rpop3_session_recv_msg: mark the record, then
        the next DELE, or free the queue and go idle. */
    method DeleteAcked() returns (ret: int)
      requires session.state == Pop3Types.Delete && HandlerReady(Snap())
      modifies this, session, session.msg
      ensures var s := old(Snap()); var s1 := Rpop3Spec.DeleteRecv(s);
        if s.deleteCur + 1 < |s.deleteArray.value| then
          Snap() == Rpop3Spec.DeleteSend(s1.(deleteCur := s.deleteCur + 1)).next &&
          ret == Rpop3Spec.DeleteSend(s1.(deleteCur := s.deleteCur + 1)).ret
        else
          Snap() == s1.(deleteArray := None, deleteCur := 0, state := Idle) && ret == 0
    {
      DeleteRecv();
      if deleteCur + 1 < |deleteArray.value| {
        deleteCur := deleteCur + 1;
        ret := DeleteSend();
      } else {
        deleteArray := None;
        deleteCur := 0;
        session.state := Idle;
        ret := 0;
      }
    }

    /** The state switch of rpop3_session_recv_msg. */
    method Dispatch(env: Env, v: ErrorValue, body: string) returns (ret: int)
      requires env.prefs == session.prefs && HandlerReady(Snap())
      modifies this, session, session.msg
      ensures Snap() == Rpop3Spec.Dispatch(env, old(Snap()), v, body).next
      ensures ret == Rpop3Spec.Dispatch(env, old(Snap()), v, body).ret
    {
      match session.state
      case Ready =>
        ret := GreetingRecv();
      case Greeting =>
        ret := GreetingRecv();
      case Stls =>
        ret := AuthReply(env);
      case GetAuthUser =>
        ret := AuthReply(env);
      case GetAuthPass =>
        ret := AuthReply(env);
      case GetAuthApop =>
        ret := AuthReply(env);
      case GetRangeStat =>
        ret := StatReply(env, body);
      case GetRangeLast =>
        ret := LastReply(env, v, body);
      case GetRangeUidl =>
        ret := UidlReply(v);
      case GetSizeList =>
        session.state := GetSizeListRecv;
        ret := 0;
      case Top =>
        session.state := Pop3Types.TopRecv;
        ret := 0;
      case Delete =>
        ret := DeleteAcked();
      case Logout =>
        // the verdict of pop3_ok is still the return value here
        session.state := Done;
        ret := if v == PsSuccess then 0 else -1;
      case _ =>
        ret := -1;
    }

    /** STLS, USER, PASS and APOP acknowledged: the next authentication
        command, or STAT. */
    method AuthReply(env: Env) returns (ret: int)
      requires env.prefs == session.prefs
      requires session.state in {Stls, GetAuthUser, GetAuthPass, GetAuthApop}
      modifies session
      ensures Snap() == Rpop3Spec.Dispatch(env, old(Snap()), PsSuccess, []).next
      ensures ret == Rpop3Spec.Dispatch(env, old(Snap()), PsSuccess, []).ret
    {
      match session.state
      case Stls =>
        if !env.stlsOk {
          return -1;
        }
        AuthSend();
        ret := 0;
      case GetAuthUser =>
        session.Send(GetAuthPass, CmdPass);
        ret := 0;
      case GetAuthPass =>
        session.Send(GetRangeStat, CmdStat);
        ret := 0;
      case GetAuthApop =>
        session.Send(GetRangeStat, CmdStat);
        ret := 0;
    }

    /** GETRANGE_UIDL: a UIDL the server does not support falls back to
        LAST; otherwise the UIDL block follows. */
    method UidlReply(v: ErrorValue) returns (ret: int)
      requires session.state == GetRangeUidl
      modifies session
      ensures v == PsNotSupported ==>
                Snap() == Send(old(Snap()).(errorVal := PsSuccess), GetRangeLast, CmdLast)
      ensures v != PsNotSupported ==> Snap() == old(Snap()).(state := GetRangeUidlRecv)
      ensures ret == 0
    {
      if v == PsNotSupported {
        session.errorVal := PsSuccess;
        session.Send(GetRangeLast, CmdLast);
      } else {
        session.state := GetRangeUidlRecv;
      }
      ret := 0;
    }

    /** READY and GREETING: STLS if the account asks for STARTTLS, else the
        APOP-or-USER choice. */
    method GreetingRecv() returns (ret: int)
      modifies session
      ensures Snap() == GreetingNext(session.prefs, old(Snap())) && ret == 0
    {
      if session.prefs.sslPop == SslStartTls {
        session.Send(Stls, CmdStls);
      } else {
        AuthSend();
      }
      ret := 0;
    }

    /** GETRANGE_STAT: the count from the reply, then UIDL or QUIT. */
    method StatReply(env: Env, body: string) returns (ret: int)
      requires session.state == GetRangeStat
      modifies session
      ensures match env.statRecv(body)
        case None => Snap() == old(Snap()) && ret == -1
        case Some(n) =>
          var s1 := StatRecv(old(Snap()), n);
          ret == 0 && Snap() == if s1.count > 0 then Send(s1, GetRangeUidl, CmdUidl) else LogoutSend(s1)
    {
      match env.statRecv(body)
      case None =>
        ret := -1;
      case Some(n) =>
        session.StatRecv(n);
        if session.count > 0 {
          session.Send(GetRangeUidl, CmdUidl);
        } else {
          session.Send(Logout, CmdQuit);
        }
        ret := 0;
    }

    /** GETRANGE_LAST: a LAST the server does not support is tolerated;
        otherwise cur_msg comes from the reply. Then LIST or QUIT. */
    method LastReply(env: Env, v: ErrorValue, body: string) returns (ret: int)
      requires session.state == GetRangeLast
      modifies session
      ensures v == PsNotSupported ==> Snap() == AfterLast(old(Snap()).(errorVal := PsSuccess)) && ret == 0
      ensures v != PsNotSupported ==> match env.lastRecv(body)
        case None => Snap() == old(Snap()) && ret == -1
        case Some(m) => Snap() == AfterLast(old(Snap()).(curMsg := m)) && ret == 0
    {
      if v == PsNotSupported {
        session.errorVal := PsSuccess;
      } else {
        match env.lastRecv(body)
        case None =>
          return -1;
        case Some(m) =>
          session.curMsg := m;
      }
      if session.curMsg > 0 {
        session.Send(GetSizeList, CmdList);
      } else {
        session.Send(Logout, CmdQuit);
      }
      ret := 0;
    }

    /** rpop3_session_recv_msg: classify the line, strip its status, then
        dispatch on the state. */
    method RecvMsg(env: Env, line: string) returns (ret: int)
      requires env.prefs == session.prefs && HandlerReady(Snap())
      modifies this, session, session.msg
      ensures Snap() == Rpop3Spec.RecvMsg(env, old(Snap()), line).next
      ensures ret == Rpop3Spec.RecvMsg(env, old(Snap()), line).ret
    {
      var body := line;
      var v := PsSuccess;
      if session.state != GetRangeUidlRecv && session.state != GetSizeListRecv {
        v := env.ok(session.state, line);
        if v != PsSuccess {
          session.errorVal := v;
          if v != PsNotSupported {
            session.state := Error;
            return -1;
          }
        }
        var start := Pop3Reply.StripStatus(line);
        body := line[start..];
      }
      ret := Dispatch(env, v, body);
    }

    /** rpop3_session_recv_data_finished: the end of a UIDL or LIST block. */
    method RecvDataFinished(parsedOk: bool) returns (ret: int)
      modifies session
      ensures Snap() == Rpop3Spec.RecvDataFinished(old(Snap()), parsedOk).next
      ensures ret == Rpop3Spec.RecvDataFinished(old(Snap()), parsedOk).ret
    {
      match session.state
      case GetRangeUidlRecv =>
        if !parsedOk {
          return -1;
        }
        if cancelled {
          session.Send(Logout, CmdQuit);
        } else {
          session.Send(GetSizeList, CmdList);
        }
        ret := 0;
      case GetSizeListRecv =>
        if !parsedOk {
          return -1;
        }
        session.curMsg := 1;
        if cancelled || session.count == 0 {
          session.Send(Logout, CmdQuit);
        } else {
          TopSend();
        }
        ret := 0;
      case _ =>
        ret := -1;
    }

    /** rpop3_session_recv_data_as_file_finished: the end of a TOP block. */
    method RecvDataAsFileFinished(env: Env, h: Header) returns (ret: int)
      modifies this, session
      ensures Snap() == Rpop3Spec.RecvDataAsFileFinished(env, old(Snap()), h).next
      ensures ret == Rpop3Spec.RecvDataAsFileFinished(env, old(Snap()), h).ret
    {
      match session.state
      case TopRecv =>
        HeaderReceived(env, h);
        ret := 0;
      case _ =>
        ret := -1;
    }

    /** The TOP_RECV branch: add the row, then QUIT if cancelled, the next
        TOP while messages remain, or IDLE. */
    method HeaderReceived(env: Env, h: Header)
      requires session.state == Pop3Types.TopRecv
      modifies this, session
      ensures var s1 := old(Snap()).(rows := old(rows) + [HeaderRow(env, old(session.curMsg), h)]);
        if s1.cancelled then Snap() == LogoutSend(s1)
        else if s1.curMsg < s1.count then Snap() == Rpop3Spec.TopSend(s1.(curMsg := s1.curMsg + 1))
        else Snap() == s1.(state := Idle)
    {
      TopRecv(env, h);
      if cancelled {
        session.Send(Logout, CmdQuit);
      } else if session.curMsg < session.count {
        session.curMsg := session.curMsg + 1;
        TopSend();
      } else {
        session.state := Idle;
      }
    }

    /** rpop3_delete: when IDLE and confirmed, queue and mark every selected
        row that is not marked yet, then start DELE if the queue is nonempty. */
    method Delete(confirmed: bool, sel: seq<nat>)
      requires InRows(sel, rows)
      modifies this, session
      ensures Snap() == DeleteButton(old(Snap()), confirmed, sel)
    {
      if session.state != Idle || !confirmed {
        return;
      }
      var queue: seq<int> := [];
      var i := 0;
      while i < |sel|
        invariant 0 <= i <= |sel| && InRows(sel[..i], old(rows))
        invariant Queue(old(rows), sel[..i]) == Marked(rows, queue)
        invariant Snap() == old(Snap()).(rows := rows)
      {
        assert sel[..i + 1][..i] == sel[..i];
        var p := sel[i];
        if !rows[p].deleted {
          queue := queue + [rows[p].number];
          rows := rows[p := rows[p].(deleted := true)];
        }
        i := i + 1;
      }
      assert sel[..i] == sel;
      if |queue| > 0 {
        deleteArray := Some(queue);
        deleteCur := 0;
        var _ := DeleteSend();
      }
    }

    /** rpop3_close. The guard "state != DONE || state != ERROR" holds in
        every state, so any state but IDLE marks the window cancelled. */
    method Close()
      modifies this, session
      ensures Snap() == CloseButton(old(Snap()))
    {
      finished := true;
      if session.state == Idle {
        session.Send(Logout, CmdQuit);
      } else if session.state != Done || session.state != Error {
        cancelled := true;
      }
    }
  }
}
