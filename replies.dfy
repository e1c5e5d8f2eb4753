/** What one reply line does in each state of rpop3_session_recv_msg, and
    what the end of each block does: the next command, the new state and the
    return value, stated against the handlers of Rpop3Spec. */
module Rpop3Replies {
  import opened Pop3Types
  import Pop3Reply
  import opened Rpop3Spec

  /** A reply the classifier rates a plain success. */
  predicate Accepted(env: Env, s: Snapshot, line: string) {
    env.ok(s.state, line) == PsSuccess
  }

  /** READY and GREETING: STLS when the account asks for STARTTLS, else
      APOP when it asks for APOP, else USER. */
  lemma GreetingReply(env: Env, s: Snapshot, line: string)
    requires (s.state == Ready || s.state == Greeting) && Accepted(env, s, line)
    ensures var o := RecvMsg(env, s, line);
      && o.ret == 0
      && (env.prefs.sslPop == SslStartTls ==> o.next == Send(s, Stls, CmdStls))
      && (env.prefs.sslPop != SslStartTls && env.prefs.useApopAuth ==> o.next == Send(s, GetAuthApop, CmdApop))
      && (env.prefs.sslPop != SslStartTls && !env.prefs.useApopAuth ==> o.next == Send(s, GetAuthUser, CmdUser))
  {
  }

  /** STLS: after the handshake the same APOP-or-USER choice; a failed
      handshake returns -1 and changes nothing. */
  lemma StlsReply(env: Env, s: Snapshot, line: string)
    requires s.state == Stls && Accepted(env, s, line)
    ensures var o := RecvMsg(env, s, line);
      && (o.ret == 0 <==> env.stlsOk)
      && (!env.stlsOk ==> o.next == s)
      && (env.stlsOk && env.prefs.useApopAuth ==> o.next == Send(s, GetAuthApop, CmdApop))
      && (env.stlsOk && !env.prefs.useApopAuth ==> o.next == Send(s, GetAuthUser, CmdUser))
  {
  }

  /** USER is followed by PASS. */
  lemma UserReply(env: Env, s: Snapshot, line: string)
    requires s.state == GetAuthUser && Accepted(env, s, line)
    ensures RecvMsg(env, s, line) == Outcome(Send(s, GetAuthPass, CmdPass), 0)
  {
  }

  /** PASS and APOP are followed by STAT. */
  lemma PassReply(env: Env, s: Snapshot, line: string)
    requires (s.state == GetAuthPass || s.state == GetAuthApop) && Accepted(env, s, line)
    ensures RecvMsg(env, s, line) == Outcome(Send(s, GetRangeStat, CmdStat), 0)
  {
  }

  /** STAT: a positive count allocates the records and sends UIDL; no
      messages sends QUIT; a reply the parser rejects returns -1. */
  lemma StatReply(env: Env, s: Snapshot, line: string)
    requires s.state == GetRangeStat && Accepted(env, s, line)
    ensures var o := RecvMsg(env, s, line); var n := env.statRecv(Pop3Reply.Body(line));
      && (o.ret == 0 <==> n.Some?)
      && (n.None? ==> o.next == s)
      && (n.Some? && n.value > 0 ==>
            o.next == s.(count := n.value, curMsg := 1, msg := FreshRecords(n.value + 1),
                         state := GetRangeUidl, outbox := s.outbox + [CmdUidl]))
      && (n.Some? && n.value <= 0 ==>
            o.next == s.(count := n.value, state := Logout, outbox := s.outbox + [CmdQuit]))
  {
  }

  /** UIDL: a server without UIDL gets LAST, with error_val reset to
      success; otherwise the UIDL block is read. */
  lemma UidlReply(env: Env, s: Snapshot, line: string)
    requires s.state == GetRangeUidl
    requires env.ok(s.state, line) == PsSuccess || env.ok(s.state, line) == PsNotSupported
    ensures var o := RecvMsg(env, s, line);
      && o.ret == 0
      && (env.ok(s.state, line) == PsNotSupported ==>
            o.next == s.(errorVal := PsSuccess, state := GetRangeLast, outbox := s.outbox + [CmdLast]))
      && (env.ok(s.state, line) == PsSuccess ==> o.next == s.(state := GetRangeUidlRecv))
  {
  }

  /** LAST: a server without LAST keeps cur_msg; otherwise cur_msg comes from
      the reply. Then LIST if cur_msg is positive, QUIT otherwise. */
  lemma LastReply(env: Env, s: Snapshot, line: string)
    requires s.state == GetRangeLast
    requires env.ok(s.state, line) == PsSuccess || env.ok(s.state, line) == PsNotSupported
    ensures var o := RecvMsg(env, s, line); var v := env.ok(s.state, line);
      var m := env.lastRecv(Pop3Reply.Body(line));
      && (o.ret == 0 <==> v == PsNotSupported || m.Some?)
      && (v == PsSuccess && m.None? ==> o.next == s)
      && (o.ret == 0 ==>
            && o.next.curMsg == (if v == PsNotSupported then s.curMsg else m.value)
            && o.next.errorVal == (if v == PsNotSupported then PsSuccess else s.errorVal)
            && o.next.state == (if o.next.curMsg > 0 then GetSizeList else Logout)
            && o.next.outbox == s.outbox + [if o.next.curMsg > 0 then CmdList else CmdQuit]
            && o.next == s.(curMsg := o.next.curMsg, errorVal := o.next.errorVal,
                            state := o.next.state, outbox := o.next.outbox))
  {
  }

  /** LIST and TOP: the reply opens the block that follows. */
  lemma BlockReply(env: Env, s: Snapshot, line: string)
    requires (s.state == GetSizeList || s.state == Top) && Accepted(env, s, line)
    ensures var o := RecvMsg(env, s, line);
      && o.ret == 0
      && o.next == s.(state := if s.state == Top then TopRecv else GetSizeListRecv)
  {
  }

  /** DELE with entries left: the record of cur_msg is marked deleted and
      the next queue entry is sent. */
  lemma DeleNextReply(env: Env, s: Snapshot, line: string)
    requires s.state == Delete && HandlerReady(s) && Accepted(env, s, line)
    requires 0 <= s.deleteCur && s.deleteCur + 1 < |s.deleteArray.value|
    ensures var o := RecvMsg(env, s, line); var n := s.deleteArray.value[s.deleteCur + 1];
      && o.ret == 0
      && o.next == s.(msg := DeleteRecv(s).msg, deleteCur := s.deleteCur + 1, curMsg := n,
                      outbox := s.outbox + [CmdDele(n)])
  {
    var s2 := DeleteRecv(s).(deleteCur := s.deleteCur + 1);
    assert RecvMsg(env, s, line) == Dispatch(env, s, PsSuccess, Pop3Reply.Body(line));
    assert Dispatch(env, s, PsSuccess, Pop3Reply.Body(line)) == DeleteSend(s2);
  }

  /** DELE of the last entry: the record of cur_msg is marked deleted, the
      queue is freed and the window is idle. */
  lemma DeleLastReply(env: Env, s: Snapshot, line: string)
    requires s.state == Delete && HandlerReady(s) && Accepted(env, s, line)
    requires s.deleteCur + 1 >= |s.deleteArray.value|
    ensures var o := RecvMsg(env, s, line);
      && o.ret == 0
      && o.next == s.(msg := DeleteRecv(s).msg, deleteArray := None, deleteCur := 0, state := Idle)
  {
    assert RecvMsg(env, s, line) == Dispatch(env, s, PsSuccess, Pop3Reply.Body(line));
  }

  /** LOGOUT: the reply to QUIT ends the session; it reports success only
      when pop3_ok rated the reply a plain success. */
  lemma LogoutReply(env: Env, s: Snapshot, line: string)
    requires s.state == Logout && !Fatal(env.ok(s.state, line))
    ensures var o := RecvMsg(env, s, line);
      && (o.ret == 0 <==> Accepted(env, s, line))
      && o.next == s.(state := Done, errorVal := o.next.errorVal)
  {
  }

  /** ERROR, DONE, IDLE, and the three states that wait for a block, reach
      the default of the switch: the line returns -1 and sends nothing. In
      the UIDL and LIST block states the verdict is not even asked for, so
      nothing changes; elsewhere a non-success verdict is recorded, and only
      a fatal one moves the session to ERROR. */
  lemma UnexpectedReply(env: Env, s: Snapshot, line: string)
    requires s.state in {Error, Done, Idle, TopRecv, GetRangeUidlRecv, GetSizeListRecv}
    ensures var o := RecvMsg(env, s, line); var v := env.ok(s.state, line);
      && o.ret == -1
      && (s.state == GetRangeUidlRecv || s.state == GetSizeListRecv ==> o.next == s)
      && (s.state != GetRangeUidlRecv && s.state != GetSizeListRecv ==>
            o.next == s.(errorVal := if v != PsSuccess then v else s.errorVal,
                         state := if Fatal(v) then Error else s.state))
  {
  }

  /** The end of the UIDL block: QUIT if the window was cancelled, else LIST;
      a block the parser rejects returns -1 and changes nothing. */
  lemma UidlBlockEnd(s: Snapshot, parsedOk: bool)
    requires s.state == GetRangeUidlRecv
    ensures var o := RecvDataFinished(s, parsedOk);
      && (o.ret == 0 <==> parsedOk)
      && (!parsedOk ==> o.next == s)
      && (parsedOk && s.cancelled ==> o.next == s.(state := Logout, outbox := s.outbox + [CmdQuit]))
      && (parsedOk && !s.cancelled ==> o.next == s.(state := GetSizeList, outbox := s.outbox + [CmdList]))
  {
  }

  /** The end of the LIST block: cur_msg becomes 1, then QUIT if the window
      was cancelled or there are no messages, else TOP 1. */
  lemma ListBlockEnd(s: Snapshot, parsedOk: bool)
    requires s.state == GetSizeListRecv
    ensures var o := RecvDataFinished(s, parsedOk);
      && (o.ret == 0 <==> parsedOk)
      && (!parsedOk ==> o.next == s)
      && (parsedOk && (s.cancelled || s.count == 0) ==>
            o.next == s.(curMsg := 1, state := Logout, outbox := s.outbox + [CmdQuit]))
      && (parsedOk && !s.cancelled && s.count != 0 ==>
            o.next == s.(curMsg := 1, state := Top, outbox := s.outbox + [CmdTop(1)]))
  {
  }

  /** The end of a TOP block: the row for cur_msg is added, then QUIT if the
      window was cancelled, TOP for the next message while cur_msg < count,
      else IDLE. */
  lemma HeaderBlockEnd(env: Env, s: Snapshot, h: Header)
    requires s.state == TopRecv
    ensures var o := RecvDataAsFileFinished(env, s, h); var rows := s.rows + [HeaderRow(env, s.curMsg, h)];
      && o.ret == 0
      && (s.cancelled ==> o.next == s.(rows := rows, state := Logout, outbox := s.outbox + [CmdQuit]))
      && (!s.cancelled && s.curMsg < s.count ==>
            o.next == s.(rows := rows, curMsg := s.curMsg + 1, state := Top,
                         outbox := s.outbox + [CmdTop(s.curMsg + 1)]))
      && (!s.cancelled && s.curMsg >= s.count ==> o.next == s.(rows := rows, state := Idle))
  {
  }
}
