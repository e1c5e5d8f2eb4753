/** Properties of whole sessions of the src/rpop3.c dispatcher: what a run of
    replies and button presses does, stated on Rpop3Spec.Run. */
module Rpop3Props {
  import opened Pop3Types
  import opened Rpop3Spec
  import opened Rpop3Inv
  import opened Rpop3Replies
  import Pop3Reply

  // ---------------------------------------------------------------------
  // Runs
  // ---------------------------------------------------------------------

  /** Running a + b is running a, then b. */
  lemma {:induction false} RunAppend(env: Env, s: Snapshot, a: seq<Event>, b: seq<Event>)
    ensures Run(env, s, a + b) == Run(env, Run(env, s, a), b)
    decreases |a|
  {
    if a == [] {
      assert a + b == b;
    } else {
      assert (a + b)[0] == a[0];
      assert (a + b)[1..] == a[1..] + b;
      RunAppend(env, StepOrSkip(env, s, a[0]), a[1..], b);
    }
  }

  /** A deliverable event first, then the rest. */
  lemma RunCons(env: Env, s: Snapshot, e: Event, rest: seq<Event>, t: Snapshot)
    requires Enabled(s, e) && Step(env, s, e) == t
    ensures Run(env, s, [e] + rest) == Run(env, t, rest)
  {
    assert ([e] + rest)[1..] == rest;
  }

  /** A server that accepts every command: every reply is rated a success
      and the TLS handshake succeeds. */
  ghost predicate Accepting(env: Env) {
    (forall st, line :: env.ok(st, line) == PsSuccess) && env.stlsOk
  }

  /** One single-line reply per text. */
  function Lines(replies: seq<string>): (evs: seq<Event>)
    ensures |evs| == |replies|
    ensures forall i :: 0 <= i < |replies| ==> evs[i] == Line(replies[i])
  {
    if replies == [] then [] else [Line(replies[0])] + Lines(replies[1..])
  }

  lemma LinesCons(replies: seq<string>)
    requires replies != []
    ensures Lines(replies) == [Line(replies[0])] + Lines(replies[1..])
  {
  }

  /** A reply line that leads to t, then the remaining lines. */
  lemma LineStep(env: Env, s: Snapshot, replies: seq<string>, t: Snapshot)
    requires HandlerReady(s) && replies != [] && RecvMsg(env, s, replies[0]).next == t
    ensures Run(env, s, Lines(replies)) == Run(env, t, Lines(replies[1..]))
  {
    LinesCons(replies);
    RunCons(env, s, Line(replies[0]), Lines(replies[1..]), t);
  }

  // ---------------------------------------------------------------------
  // The opening of a session
  // ---------------------------------------------------------------------

  /** The commands of the APOP-or-USER choice, then STAT. */
  function AuthCmds(prefs: Prefs): seq<Command> {
    if prefs.useApopAuth then [CmdApop, CmdStat] else [CmdUser, CmdPass, CmdStat]
  }

  /** PASS or APOP accepted: STAT is written. */
  lemma PassRun(env: Env, s: Snapshot, r: seq<string>)
    requires Accepting(env) && (s.state == GetAuthPass || s.state == GetAuthApop) && |r| == 1
    ensures Run(env, s, Lines(r)) == Send(s, GetRangeStat, CmdStat)
  {
    assert Accepted(env, s, r[0]);
    PassReply(env, s, r[0]);
    LineStep(env, s, r, Send(s, GetRangeStat, CmdStat));
    assert r[1..] == [];
  }

  /** From the APOP-or-USER choice, one accepted reply per command reaches
      STAT having written the authentication commands and STAT. */
  lemma AuthRun(env: Env, s: Snapshot, r: seq<string>)
    requires Accepting(env) && |r| == if env.prefs.useApopAuth then 1 else 2
    ensures Run(env, AuthSend(env.prefs, s), Lines(r)).state == GetRangeStat
    ensures Run(env, AuthSend(env.prefs, s), Lines(r)).outbox == s.outbox + AuthCmds(env.prefs)
  {
    var s1 := AuthSend(env.prefs, s);
    if env.prefs.useApopAuth {
      PassRun(env, s1, r);
    } else {
      var s2 := Send(s1, GetAuthPass, CmdPass);
      assert Accepted(env, s1, r[0]);
      UserReply(env, s1, r[0]);
      LineStep(env, s1, r, s2);
      PassRun(env, s2, r[1..]);
    }
  }

  lemma GreetingRecv(env: Env, line: string)
    requires Accepted(env, Init(), line)
    ensures RecvMsg(env, Init(), line).next == GreetingNext(env.prefs, Init())
  {
    GreetingReply(env, Init(), line);
  }

  /** The greeting accepted: STLS, or the APOP-or-USER choice. */
  lemma GreetingRun(env: Env, r: seq<string>)
    requires Accepting(env) && r != []
    ensures Run(env, Init(), Lines(r)) == Run(env, GreetingNext(env.prefs, Init()), Lines(r[1..]))
  {
    assert Accepted(env, Init(), r[0]);
    GreetingRecv(env, r[0]);
    LineStep(env, Init(), r, GreetingNext(env.prefs, Init()));
  }

  lemma StlsRecv(env: Env, s: Snapshot, line: string)
    requires s.state == Stls && Accepted(env, s, line) && env.stlsOk
    ensures RecvMsg(env, s, line).next == AuthSend(env.prefs, s)
  {
    StlsReply(env, s, line);
  }

  /** STLS accepted and the handshake done: the APOP-or-USER choice. */
  lemma StlsRun(env: Env, s: Snapshot, r: seq<string>)
    requires Accepting(env) && s.state == Stls && r != []
    ensures Run(env, s, Lines(r)) == Run(env, AuthSend(env.prefs, s), Lines(r[1..]))
  {
    assert Accepted(env, s, r[0]);
    StlsRecv(env, s, r[0]);
    LineStep(env, s, r, AuthSend(env.prefs, s));
  }

  /** The opening commands: STLS with STARTTLS, then the authentication
      commands and STAT. */
  lemma OpeningSplit(prefs: Prefs)
    ensures prefs.sslPop == SslStartTls ==>
      && GreetingNext(prefs, Init()) == Send(Init(), Stls, CmdStls)
      && Send(Init(), Stls, CmdStls).outbox + AuthCmds(prefs) == Opening(prefs)
    ensures prefs.sslPop != SslStartTls ==>
      && GreetingNext(prefs, Init()) == AuthSend(prefs, Init())
      && Init().outbox + AuthCmds(prefs) == Opening(prefs)
  {
  }

  /** Against a server that accepts every command, the greeting and one reply
      per authentication command lead to STAT: the commands written are
      exactly STLS (with STARTTLS), then APOP or USER and PASS, then STAT. */
  lemma OpeningRun(env: Env, replies: seq<string>)
    requires Accepting(env) && |replies| == AuthLen(env.prefs) + 1
    ensures Run(env, Init(), Lines(replies)).state == GetRangeStat
    ensures Run(env, Init(), Lines(replies)).outbox == Opening(env.prefs)
  {
    OpeningSplit(env.prefs);
    GreetingRun(env, replies);
    var r := replies[1..];
    if env.prefs.sslPop == SslStartTls {
      var s1 := Send(Init(), Stls, CmdStls);
      StlsRun(env, s1, r);
      AuthRun(env, s1, r[1..]);
    } else {
      AuthRun(env, Init(), r);
    }
  }

  // ---------------------------------------------------------------------
  // Quiet endings and cancellation
  // ---------------------------------------------------------------------

  /** Once QUIT is sent or the session is over, no event writes a command
      and the session never leaves LOGOUT, DONE or ERROR. */
  lemma ClosingStep(env: Env, s: Snapshot, e: Event)
    requires Closing(s.state)
    ensures Closing(StepOrSkip(env, s, e).state) && StepOrSkip(env, s, e).outbox == s.outbox
  {
  }

  lemma {:induction false} ClosingQuiet(env: Env, s: Snapshot, evs: seq<Event>)
    requires Closing(s.state)
    ensures Closing(Run(env, s, evs).state) && Run(env, s, evs).outbox == s.outbox
    decreases |evs|
  {
    if evs != [] {
      ClosingStep(env, s, evs[0]);
      ClosingQuiet(env, StepOrSkip(env, s, evs[0]), evs[1..]);
    }
  }

  /** The commands written by one event, past those already written. */
  ghost predicate NoTopAfter(before: seq<Command>, after: seq<Command>) {
    && |before| <= |after| && after[..|before|] == before
    && forall k :: |before| <= k < |after| ==> !after[k].CmdTop?
  }

  /** after is before, or before and one command other than TOP. */
  ghost predicate OneNonTop(before: seq<Command>, after: seq<Command>) {
    after == before || (|after| == |before| + 1 && after[..|before|] == before && !after[|before|].CmdTop?)
  }

  lemma OneNonTopNoTop(before: seq<Command>, after: seq<Command>)
    requires OneNonTop(before, after)
    ensures NoTopAfter(before, after)
  {
    if after == before {
      assert after[..|before|] == before;
    }
  }

  lemma SendNonTop(s: Snapshot, st: State, c: Command)
    requires !c.CmdTop?
    ensures OneNonTop(s.outbox, Send(s, st, c).outbox)
  {
    assert (s.outbox + [c])[..|s.outbox|] == s.outbox;
  }

  /** Greeting, STLS and authentication replies write STLS, APOP, USER, PASS
      or STAT, or nothing. */
  lemma OpeningNoTop(env: Env, s: Snapshot, v: ErrorValue, body: string)
    requires s.state in {Ready, Greeting, Stls, GetAuthUser, GetAuthPass, GetAuthApop}
    ensures OneNonTop(s.outbox, Dispatch(env, s, v, body).next.outbox)
  {
    SendNonTop(s, Stls, CmdStls);
    SendNonTop(s, GetAuthApop, CmdApop);
    SendNonTop(s, GetAuthUser, CmdUser);
    SendNonTop(s, GetAuthPass, CmdPass);
    SendNonTop(s, GetRangeStat, CmdStat);
  }

  /** STAT, LAST and UIDL replies write UIDL, LAST, LIST or QUIT, or nothing. */
  lemma RangeNoTop(env: Env, s: Snapshot, v: ErrorValue, body: string)
    requires s.state in {GetRangeStat, GetRangeLast, GetRangeUidl}
    ensures OneNonTop(s.outbox, Dispatch(env, s, v, body).next.outbox)
  {
    if s.state == GetRangeStat && env.statRecv(body).Some? {
      var s1 := StatRecv(s, env.statRecv(body).value);
      SendNonTop(s1, GetRangeUidl, CmdUidl);
      SendNonTop(s1, Logout, CmdQuit);
    } else if s.state == GetRangeLast {
      var s1 := if v == PsNotSupported then s.(errorVal := PsSuccess)
                else s.(curMsg := if env.lastRecv(body).Some? then env.lastRecv(body).value else 0);
      SendNonTop(s1, GetSizeList, CmdList);
      SendNonTop(s1, Logout, CmdQuit);
    } else if s.state == GetRangeUidl {
      SendNonTop(s.(errorVal := PsSuccess), GetRangeLast, CmdLast);
    }
  }

  /** Every other reply writes DELE or nothing. */
  lemma LateNoTop(env: Env, s: Snapshot, v: ErrorValue, body: string)
    requires HandlerReady(s)
    requires s.state !in {Ready, Greeting, Stls, GetAuthUser, GetAuthPass, GetAuthApop,
                          GetRangeStat, GetRangeLast, GetRangeUidl}
    ensures OneNonTop(s.outbox, Dispatch(env, s, v, body).next.outbox)
  {
    if s.state == Delete && s.deleteCur + 1 < |s.deleteArray.value| {
      var o := DeleteSend(DeleteRecv(s).(deleteCur := s.deleteCur + 1));
      if o.ret == 0 {
        assert (s.outbox + [o.next.outbox[|s.outbox|]])[..|s.outbox|] == s.outbox;
      }
    }
  }

  /** A reply line writes at most one command, and never TOP: TOP is sent
      only at the end of the LIST block and of a TOP block. */
  lemma RecvMsgSendsNoTop(env: Env, s: Snapshot, line: string)
    requires HandlerReady(s)
    ensures OneNonTop(s.outbox, RecvMsg(env, s, line).next.outbox)
  {
    var v := env.ok(s.state, line);
    if s.state == GetRangeUidlRecv || s.state == GetSizeListRecv {
      LateNoTop(env, s, PsSuccess, line);
    } else if !Fatal(v) {
      var s1 := if v != PsSuccess then s.(errorVal := v) else s;
      var body := Pop3Reply.Body(line);
      if s1.state in {Ready, Greeting, Stls, GetAuthUser, GetAuthPass, GetAuthApop} {
        OpeningNoTop(env, s1, v, body);
      } else if s1.state in {GetRangeStat, GetRangeLast, GetRangeUidl} {
        RangeNoTop(env, s1, v, body);
      } else {
        LateNoTop(env, s1, v, body);
      }
    }
  }

  /** Once the window is cancelled, it stays cancelled and no event sends TOP. */
  lemma CancelledStep(env: Env, s: Snapshot, e: Event)
    requires s.cancelled
    ensures StepOrSkip(env, s, e).cancelled
    ensures NoTopAfter(s.outbox, StepOrSkip(env, s, e).outbox)
  {
    if Enabled(s, e) && e.Line? {
      RecvMsgSendsNoTop(env, s, e.text);
      OneNonTopNoTop(s.outbox, StepOrSkip(env, s, e).outbox);
    }
  }

  lemma NoTopAfterTrans(a: seq<Command>, b: seq<Command>, c: seq<Command>)
    requires NoTopAfter(a, b) && NoTopAfter(b, c)
    ensures NoTopAfter(a, c)
  {
    assert c[..|b|][..|a|] == c[..|a|];
    forall k | |a| <= k < |c| ensures !c[k].CmdTop? {
      if k < |b| {
        assert c[k] == c[..|b|][k];
      }
    }
  }

  /** Cancelling stops the header loop: over any run from a cancelled
      window no TOP is written. */
  lemma {:induction false} CancelledNoTop(env: Env, s: Snapshot, evs: seq<Event>)
    requires s.cancelled
    ensures Run(env, s, evs).cancelled
    ensures NoTopAfter(s.outbox, Run(env, s, evs).outbox)
    decreases |evs|
  {
    if evs == [] {
      assert s.outbox[..|s.outbox|] == s.outbox;
    } else {
      var s1 := StepOrSkip(env, s, evs[0]);
      CancelledStep(env, s, evs[0]);
      CancelledNoTop(env, s1, evs[1..]);
      NoTopAfterTrans(s.outbox, s1.outbox, Run(env, s1, evs[1..]).outbox);
    }
  }

  // ---------------------------------------------------------------------
  // Every reachable session
  // ---------------------------------------------------------------------

  /** Whatever replies and button presses arrive, the commands written open
      with the authentication sequence and STAT, follow protocol order, skip
      no step (LAST and LIST only after UIDL, TOP only after LIST, DELE only
      once every message has had its TOP), send TOP for 1, 2, ... with no gap
      and never past the message count, and the DELE queue only names
      existing rows and records. */
  lemma ReachableSession(env: Env, evs: seq<Event>)
    ensures var t := Run(env, Init(), evs);
      && OpensWith(env.prefs, t.outbox)
      && Ordered(t.outbox)
      && (CmdLast in t.outbox ==> CmdUidl in t.outbox)
      && (CmdList in t.outbox ==> CmdUidl in t.outbox)
      && (|Tops(t.outbox)| > 0 ==> CmdList in t.outbox)
      && (forall i :: 0 <= i < |t.outbox| && t.outbox[i].CmdDele? ==> |Tops(t.outbox)| == t.count)
      && (forall j :: 0 <= j < |Tops(t.outbox)| ==> Tops(t.outbox)[j] == j + 1 && j + 1 <= t.count)
      && (InHeaderLoop(t.state) ==> 1 <= t.curMsg <= t.count)
      && (t.deleteArray.Some? ==> forall j :: 0 <= j < |t.deleteArray.value| ==>
            1 <= t.deleteArray.value[j] <= |t.rows| && t.deleteArray.value[j] < |t.msg|)
  {
    InitInv(env.prefs);
    RunKeepsInv(env, Init(), evs);
    var ob := Run(env, Init(), evs).outbox;
    SentIn(ob, CmdUidl);
    SentIn(ob, CmdLast);
    SentIn(ob, CmdList);
  }

  /** Over any run from a reachable snapshot, no deletion mark is cleared. */
  lemma DeletedStaysMarked(env: Env, s: Snapshot, evs: seq<Event>, i: int)
    requires Inv(env.prefs, s) && 0 <= i < |s.msg| && s.msg[i].deleted
    ensures i < |Run(env, s, evs).msg| && Run(env, s, evs).msg[i].deleted
  {
    RunKeepsMarks(env, s, evs);
  }
}
