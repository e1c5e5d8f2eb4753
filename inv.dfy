/** The session invariant of the src/rpop3.c dispatcher: the order in which
    commands are written, the shape of the message records, header rows and
    deletion queue, and the proof that every handler and button keeps it. */
module Rpop3Inv {
  import opened Pop3Types
  import opened Rpop3Spec

  // ---------------------------------------------------------------------
  // Command order
  // ---------------------------------------------------------------------

  /** How many authentication commands precede STAT: STLS when the account
      asks for STARTTLS, then APOP, or USER and PASS. */
  function AuthLen(prefs: Prefs): nat {
    (if prefs.sslPop == SslStartTls then 1 else 0) + (if prefs.useApopAuth then 1 else 2)
  }

  /** The opening of every session: authentication, then STAT. */
  function Opening(prefs: Prefs): (o: seq<Command>)
    ensures |o| == AuthLen(prefs) + 1
  {
    if prefs.sslPop == SslStartTls then
      if prefs.useApopAuth then [CmdStls, CmdApop, CmdStat] else [CmdStls, CmdUser, CmdPass, CmdStat]
    else if prefs.useApopAuth then [CmdApop, CmdStat] else [CmdUser, CmdPass, CmdStat]
  }

  /** Position of a command in the protocol sequence. */
  function Rank(c: Command): int {
    match c
    case CmdStls => 0
    case CmdUser => 1
    case CmdApop => 1
    case CmdPass => 2
    case CmdStat => 3
    case CmdUidl => 4
    case CmdLast => 5
    case CmdList => 6
    case CmdTop(_) => 7
    case CmdDele(_) => 8
    case CmdQuit => 9
  }

  /** Only TOP and DELE may be sent more than once. */
  predicate Repeatable(c: Command) {
    c.CmdTop? || c.CmdDele?
  }

  /** Commands are sent in protocol order; only TOP and DELE repeat. */
  ghost predicate Ordered(ob: seq<Command>) {
    forall i, j :: 0 <= i < j < |ob| ==>
      Rank(ob[i]) < Rank(ob[j]) || (Rank(ob[i]) == Rank(ob[j]) && Repeatable(ob[i]))
  }

  /** The first commands are those of the opening. */
  ghost predicate OpensWith(prefs: Prefs, ob: seq<Command>) {
    forall i :: 0 <= i < |ob| && i < |Opening(prefs)| ==> ob[i] == Opening(prefs)[i]
  }

  /** The message numbers of the TOP commands, in the order sent. */
  function Tops(ob: seq<Command>): (t: seq<int>)
    ensures |t| <= |ob|
  {
    if ob == [] then []
    else Tops(ob[..|ob| - 1]) + (if ob[|ob| - 1].CmdTop? then [ob[|ob| - 1].n] else [])
  }

  /** Whether the command c is among those sent; the same as c in ob
      (SentIn), written recursively so that it grows one command at a time. */
  predicate Sent(ob: seq<Command>, c: Command) {
    ob != [] && (ob[|ob| - 1] == c || Sent(ob[..|ob| - 1], c))
  }

  /** TOP was sent for 1, 2, 3, ... with no gap and no repeat. */
  ghost predicate TopsConsecutive(ob: seq<Command>) {
    forall j :: 0 <= j < |Tops(ob)| ==> Tops(ob)[j] == j + 1
  }

  /** The highest command rank that may have been sent once a state is reached. */
  function StateRank(st: State): int {
    match st
    case Ready => -1
    case Greeting => -1
    case Stls => 0
    case GetAuthUser => 1
    case GetAuthApop => 1
    case GetAuthPass => 2
    case GetRangeStat => 3
    case GetRangeUidl => 4
    case GetRangeUidlRecv => 4
    case GetRangeLast => 5
    case GetSizeList => 6
    case GetSizeListRecv => 6
    case Top => 7
    case TopRecv => 7
    case Idle => 8
    case Delete => 8
    case Logout => 9
    case Done => 9
    case Error => 9
  }

  predicate BeforeStat(st: State) {
    StateRank(st) <= 3 && st != Error
  }

  /** Waiting for the UIDL or LAST reply, or reading the UIDL block. */
  predicate Probing(st: State) {
    st == GetRangeUidl || st == GetRangeUidlRecv || st == GetRangeLast
  }

  /** Waiting for the LIST reply or reading its block. */
  predicate Listing(st: State) {
    st == GetSizeList || st == GetSizeListRecv
  }

  /** Inside the TOP loop. */
  predicate InHeaderLoop(st: State) {
    st == Top || st == TopRecv
  }

  /** The list is complete: idle, or running a DELE queue. */
  predicate Browsing(st: State) {
    st == Idle || st == Delete
  }

  /** How many commands the opening states have sent. */
  ghost predicate OpeningProgress(prefs: Prefs, s: Snapshot) {
    var a := AuthLen(prefs);
    var n := |s.outbox|;
    match s.state
    case Ready => n == 0
    case Greeting => n == 0
    case Stls => prefs.sslPop == SslStartTls && n == 1
    case GetAuthUser => !prefs.useApopAuth && n == a - 1
    case GetAuthApop => prefs.useApopAuth && n == a
    case GetAuthPass => !prefs.useApopAuth && n == a
    case GetRangeStat => n == a + 1
    case Error => true
    case _ => n >= a + 1
  }

  // ---------------------------------------------------------------------
  // The session invariant
  // ---------------------------------------------------------------------

  /** No command sent so far ranks above r. */
  ghost predicate RankBound(ob: seq<Command>, r: int) {
    forall i :: 0 <= i < |ob| ==> Rank(ob[i]) <= r
  }

  /** How the TOP commands sent relate to the message count and cur_msg. */
  ghost predicate TopsCounted(s: Snapshot) {
    && (|Tops(s.outbox)| > 0 ==> |Tops(s.outbox)| <= s.count)
    && (InHeaderLoop(s.state) ==> |Tops(s.outbox)| == s.curMsg)
    && (Browsing(s.state) ==> |Tops(s.outbox)| == s.count)
  }

  /** No step of the range and listing phase is skipped: LAST and LIST only
      after UIDL, TOP only after LIST, and DELE only once every message has
      had its TOP. */
  ghost predicate Milestones(ob: seq<Command>, count: int) {
    && (Sent(ob, CmdLast) ==> Sent(ob, CmdUidl))
    && (Sent(ob, CmdList) ==> Sent(ob, CmdUidl))
    && (|Tops(ob)| > 0 ==> Sent(ob, CmdList))
    && (forall i :: 0 <= i < |ob| && ob[i].CmdDele? ==> |Tops(ob)| == count)
  }

  /** The milestones a state has passed: UIDL from GETRANGE_UIDL up to
      DELETE, and LIST from GETSIZE_LIST up to DELETE. */
  ghost predicate Reached(s: Snapshot) {
    && (4 <= StateRank(s.state) <= 8 ==> Sent(s.outbox, CmdUidl))
    && (6 <= StateRank(s.state) <= 8 ==> Sent(s.outbox, CmdList))
  }

  /** The command-order half of the session invariant. */
  ghost predicate OrderInv(prefs: Prefs, s: Snapshot) {
    && OpensWith(prefs, s.outbox)
    && Ordered(s.outbox)
    && RankBound(s.outbox, StateRank(s.state))
    && OpeningProgress(prefs, s)
    && TopsConsecutive(s.outbox)
    && TopsCounted(s)
    && Milestones(s.outbox, s.count)
    && Reached(s)
  }

  /** Header rows are numbered 1, 2, ... and each number names a message record. */
  ghost predicate RowsNumbered(rows: seq<Row>, msgLen: int) {
    forall i :: 0 <= i < |rows| ==> rows[i].number == i + 1 && i + 1 < msgLen
  }

  /** The deletion queue: it exists only while DELE runs (or the session
      failed during it), delete_cur is inside it and every entry names a row
      and a record. */
  ghost predicate QueueInv(s: Snapshot) {
    && (s.deleteArray.None? ==> s.deleteCur == 0)
    && (s.deleteArray.Some? ==>
          && 0 <= s.deleteCur < |s.deleteArray.value|
          && (s.state == Delete || s.state == Error)
          && forall j :: 0 <= j < |s.deleteArray.value| ==>
               1 <= s.deleteArray.value[j] <= |s.rows| && s.deleteArray.value[j] < |s.msg|)
    && (s.state == Delete ==>
          s.deleteArray.Some? && s.curMsg == s.deleteArray.value[s.deleteCur])
  }

  /** The data half of the session invariant. */
  ghost predicate DataInv(s: Snapshot) {
    // message records: 1-based, allocated by STAT
    && (BeforeStat(s.state) ==> s.count == 0)
    && |s.msg| == (if s.count > 0 then s.count + 1 else 0)
    // range and listing
    && (Probing(s.state) ==> s.count > 0 && s.curMsg == 1)
    && (Listing(s.state) ==> s.count > 0)
    // header rows: one per TOP reply, in message order
    && RowsNumbered(s.rows, |s.msg|)
    && (StateRank(s.state) <= 6 && s.state != Error ==> s.rows == [])
    && (InHeaderLoop(s.state) ==> 1 <= s.curMsg <= s.count && |s.rows| == s.curMsg - 1)
    && (Browsing(s.state) ==> |s.rows| == s.count)
    && QueueInv(s)
  }

  /** What holds of every snapshot a session can reach. */
  ghost predicate Inv(prefs: Prefs, s: Snapshot) {
    OrderInv(prefs, s) && DataInv(s)
  }

  lemma InitInv(prefs: Prefs)
    ensures Inv(prefs, Init())
  {
  }

  // ---------------------------------------------------------------------
  // Single-step guarantees
  // ---------------------------------------------------------------------

  /** The outbox grows by at most one command: POP3 is half-duplex. */
  predicate AtMostOneSent(before: seq<Command>, after: seq<Command>) {
    after == before || (|after| == |before| + 1 && after[..|before|] == before)
  }

  /** No deletion mark is cleared, on a message record or on a row, and no
      row disappears. */
  ghost predicate MarksKept(s: Snapshot, t: Snapshot) {
    && (s.msg == [] ||
        (|t.msg| == |s.msg| && forall i :: 0 <= i < |s.msg| && s.msg[i].deleted ==> t.msg[i].deleted))
    && |s.rows| <= |t.rows|
    && (forall i :: 0 <= i < |s.rows| && s.rows[i].deleted ==> t.rows[i].deleted)
  }

  /** What every handler and button guarantees: the invariant holds
      afterwards, at most one command was sent and no mark was cleared. */
  ghost predicate StepOk(prefs: Prefs, s: Snapshot, t: Snapshot) {
    Inv(prefs, t) && AtMostOneSent(s.outbox, t.outbox) && MarksKept(s, t)
  }

  /** Appending one command whose rank is allowed keeps the order. */
  lemma SendKeepsInv(prefs: Prefs, s: Snapshot, st: State, c: Command)
    requires OpensWith(prefs, s.outbox) && Ordered(s.outbox) && TopsConsecutive(s.outbox)
    requires RankBound(s.outbox, StateRank(s.state))
    requires Rank(c) > StateRank(s.state) || (Rank(c) == StateRank(s.state) && Repeatable(c))
    requires Rank(c) <= StateRank(st)
    requires |s.outbox| < |Opening(prefs)| ==> c == Opening(prefs)[|s.outbox|]
    requires c.CmdTop? ==> c.n == |Tops(s.outbox)| + 1
    ensures var ob := s.outbox + [c];
      && OpensWith(prefs, ob) && Ordered(ob) && TopsConsecutive(ob)
      && RankBound(ob, StateRank(st))
      && Tops(ob) == Tops(s.outbox) + (if c.CmdTop? then [c.n] else [])
  {
    OpensWithAppend(prefs, s.outbox, c);
    OrderedAppend(s.outbox, c, StateRank(s.state), StateRank(st));
    TopsAppend(s.outbox, c);
  }

  lemma OpensWithAppend(prefs: Prefs, ob: seq<Command>, c: Command)
    requires OpensWith(prefs, ob)
    requires |ob| < |Opening(prefs)| ==> c == Opening(prefs)[|ob|]
    ensures OpensWith(prefs, ob + [c])
  {
    var ob' := ob + [c];
    forall i | 0 <= i < |ob'| && i < |Opening(prefs)| ensures ob'[i] == Opening(prefs)[i] {
      if i < |ob| { assert ob'[i] == ob[i]; }
    }
  }

  lemma OrderedAppend(ob: seq<Command>, c: Command, r: int, r': int)
    requires Ordered(ob) && RankBound(ob, r)
    requires Rank(c) > r || (Rank(c) == r && Repeatable(c))
    requires Rank(c) <= r'
    ensures Ordered(ob + [c]) && RankBound(ob + [c], r')
  {
    var ob' := ob + [c];
    forall i, j | 0 <= i < j < |ob'|
      ensures Rank(ob'[i]) < Rank(ob'[j]) || (Rank(ob'[i]) == Rank(ob'[j]) && Repeatable(ob'[i]))
    {
      assert ob'[i] == ob[i];
      if j < |ob| { assert ob'[j] == ob[j]; }
    }
    forall i | 0 <= i < |ob'| ensures Rank(ob'[i]) <= r' {
      if i < |ob| { assert ob'[i] == ob[i]; }
    }
  }

  lemma TopsAppend(ob: seq<Command>, c: Command)
    requires TopsConsecutive(ob)
    requires c.CmdTop? ==> c.n == |Tops(ob)| + 1
    ensures TopsConsecutive(ob + [c])
    ensures Tops(ob + [c]) == Tops(ob) + (if c.CmdTop? then [c.n] else [])
  {
    assert (ob + [c])[..|ob|] == ob;
  }


  lemma SentAppend(ob: seq<Command>, c: Command, d: Command)
    ensures Sent(ob + [c], d) == (Sent(ob, d) || c == d)
  {
    assert (ob + [c])[..|ob|] == ob;
  }

  lemma {:induction false} SentIn(ob: seq<Command>, c: Command)
    ensures Sent(ob, c) <==> c in ob
  {
    if ob != [] {
      var init := ob[..|ob| - 1];
      SentIn(init, c);
      assert ob == init + [ob[|ob| - 1]];
    }
  }

  /** Nothing ranked above the bound has been sent. */
  lemma {:induction false} NotSentAbove(ob: seq<Command>, c: Command, r: int)
    requires RankBound(ob, r) && Rank(c) > r
    ensures !Sent(ob, c)
  {
    if ob != [] {
      var init := ob[..|ob| - 1];
      assert Rank(ob[|ob| - 1]) <= r;
      assert RankBound(init, r) by {
        forall i | 0 <= i < |init| ensures Rank(init[i]) <= r {
          assert init[i] == ob[i];
        }
      }
      NotSentAbove(init, c, r);
    }
  }

  lemma RankBoundUp(ob: seq<Command>, r: int, r': int)
    requires RankBound(ob, r) && r <= r'
    ensures RankBound(ob, r')
  {
  }

  /** Before TOP (rank 7) nothing was sent for TOP. */
  lemma {:induction false} NoTops(ob: seq<Command>, r: int)
    requires RankBound(ob, r) && r < 7
    ensures Tops(ob) == []
  {
    if ob != [] {
      var init := ob[..|ob| - 1];
      assert RankBound(init, r) by {
        forall i | 0 <= i < |init| ensures Rank(init[i]) <= r {
          assert init[i] == ob[i];
        }
      }
      NoTops(init, r);
      assert Rank(ob[|ob| - 1]) <= r;
    }
  }

  /** Before UIDL (rank 4) no milestone has been passed, whatever the count. */
  lemma LowMilestones(ob: seq<Command>, count: int)
    requires RankBound(ob, 3)
    ensures Milestones(ob, count)
  {
    NoTops(ob, 3);
    NotSentAbove(ob, CmdLast, 3);
    NotSentAbove(ob, CmdList, 3);
    forall i | 0 <= i < |ob| ensures !ob[i].CmdDele? {
      assert Rank(ob[i]) <= 3;
    }
  }

  /** Appending a command whose milestones have been passed. */
  lemma MilestonesAppend(ob: seq<Command>, c: Command, count: int, r: int)
    requires Milestones(ob, count) && RankBound(ob, r) && Rank(c) >= r
    requires (c == CmdLast || c == CmdList) ==> Sent(ob, CmdUidl)
    requires c.CmdTop? ==> Sent(ob, CmdList)
    requires c.CmdDele? ==> |Tops(ob)| == count
    requires Tops(ob + [c]) == Tops(ob) + (if c.CmdTop? then [c.n] else [])
    ensures Milestones(ob + [c], count)
  {
    var ob' := ob + [c];
    SentAppend(ob, c, CmdUidl);
    SentAppend(ob, c, CmdLast);
    SentAppend(ob, c, CmdList);
    forall i | 0 <= i < |ob'| && ob'[i].CmdDele? ensures |Tops(ob')| == count {
      if i < |ob| {
        assert ob'[i] == ob[i];
        assert Rank(ob[i]) <= r;
      }
    }
  }

  /** The TOP count k after a send, against the count and cur_msg of the new state. */
  predicate CountedAfter(k: int, st: State, count: int, curMsg: int) {
    && (k > 0 ==> k <= count)
    && (InHeaderLoop(st) ==> k == curMsg)
    && (Browsing(st) ==> k == count)
  }

  /** A command sent after STAT keeps the order half of the invariant. */
  lemma SendOrder(prefs: Prefs, s: Snapshot, st: State, c: Command)
    requires OpensWith(prefs, s.outbox) && Ordered(s.outbox) && TopsConsecutive(s.outbox)
    requires RankBound(s.outbox, StateRank(s.state))
    requires Rank(c) > StateRank(s.state) || (Rank(c) == StateRank(s.state) && Repeatable(c))
    requires Rank(c) <= StateRank(st)
    requires |s.outbox| >= AuthLen(prefs) + 1 && StateRank(st) >= 4
    requires c.CmdTop? ==> c.n == |Tops(s.outbox)| + 1
    requires CountedAfter(|Tops(s.outbox)| + (if c.CmdTop? then 1 else 0), st, s.count, s.curMsg)
    requires Milestones(s.outbox, s.count)
    requires (c == CmdLast || c == CmdList) ==> Sent(s.outbox, CmdUidl)
    requires c.CmdTop? ==> Sent(s.outbox, CmdList)
    requires c.CmdDele? ==> |Tops(s.outbox)| == s.count
    requires 4 <= StateRank(st) <= 8 ==> Sent(s.outbox, CmdUidl) || c == CmdUidl
    requires 6 <= StateRank(st) <= 8 ==> Sent(s.outbox, CmdList) || c == CmdList
    ensures OrderInv(prefs, Send(s, st, c))
  {
    var t := Send(s, st, c);
    assert t.outbox == s.outbox + [c] && t.state == st && t.count == s.count && t.curMsg == s.curMsg;
    SendKeepsInv(prefs, s, st, c);
    MilestonesAppend(s.outbox, c, s.count, StateRank(s.state));
    ReachedAppend(s.outbox, c, st);
    assert TopsCounted(t);
    assert OpeningProgress(prefs, t);
  }

  lemma ReachedAppend(ob: seq<Command>, c: Command, st: State)
    requires 4 <= StateRank(st) <= 8 ==> Sent(ob, CmdUidl) || c == CmdUidl
    requires 6 <= StateRank(st) <= 8 ==> Sent(ob, CmdList) || c == CmdList
    ensures 4 <= StateRank(st) <= 8 ==> Sent(ob + [c], CmdUidl)
    ensures 6 <= StateRank(st) <= 8 ==> Sent(ob + [c], CmdList)
  {
    SentAppend(ob, c, CmdUidl);
    SentAppend(ob, c, CmdList);
  }

  /** A command of the opening keeps the order half of the invariant. */
  lemma OpeningSendOrder(prefs: Prefs, s: Snapshot, st: State, c: Command)
    requires OpensWith(prefs, s.outbox) && Ordered(s.outbox) && TopsConsecutive(s.outbox)
    requires RankBound(s.outbox, StateRank(s.state))
    requires Rank(c) > StateRank(s.state) && Rank(c) <= StateRank(st) <= 3
    requires !InHeaderLoop(st) && !Browsing(st)
    requires |s.outbox| < |Opening(prefs)| ==> c == Opening(prefs)[|s.outbox|]
    requires OpeningProgress(prefs, Send(s, st, c))
    ensures OrderInv(prefs, Send(s, st, c))
  {
    NoTops(s.outbox, StateRank(s.state));
    SendKeepsInv(prefs, s, st, c);
    RankBoundUp(s.outbox + [c], StateRank(st), 3);
    LowMilestones(s.outbox + [c], s.count);
  }

  /** The order half does not depend on the rows, the records or the queue,
      nor on cur_msg outside the header loop. */
  lemma OrderFree(prefs: Prefs, s: Snapshot, t: Snapshot)
    requires OrderInv(prefs, s)
    requires t.outbox == s.outbox && t.state == s.state && t.count == s.count
    requires InHeaderLoop(s.state) ==> t.curMsg == s.curMsg
    ensures OrderInv(prefs, t)
  {
  }

  /** QUIT after STAT, from any state before LOGOUT. */
  lemma QuitOrder(prefs: Prefs, s: Snapshot)
    requires OrderInv(prefs, s) && 4 <= StateRank(s.state) < 9
    ensures OrderInv(prefs, LogoutSend(s))
  {
    SendOrder(prefs, s, Logout, CmdQuit);
  }

  // ---------------------------------------------------------------------
  // Fields the invariant does not constrain, and ERROR
  // ---------------------------------------------------------------------

  lemma InvReady(prefs: Prefs, s: Snapshot)
    requires Inv(prefs, s)
    ensures HandlerReady(s)
  {
  }

  lemma ErrorValFree(prefs: Prefs, s: Snapshot, e: ErrorValue)
    requires Inv(prefs, s)
    ensures Inv(prefs, s.(errorVal := e))
  {
  }

  /** Replacing the snapshot a step starts from by one with the same outbox,
      records and rows. */
  lemma StepOkFrom(prefs: Prefs, s: Snapshot, s1: Snapshot, t: Snapshot)
    requires StepOk(prefs, s1, t)
    requires s1.outbox == s.outbox && s1.msg == s.msg && s1.rows == s.rows
    ensures StepOk(prefs, s, t)
  {
  }

  lemma ErrorOrder(prefs: Prefs, s: Snapshot, v: ErrorValue)
    requires OrderInv(prefs, s)
    ensures OrderInv(prefs, s.(errorVal := v, state := Error))
  {
  }

  lemma ErrorData(s: Snapshot, v: ErrorValue)
    requires DataInv(s)
    ensures DataInv(s.(errorVal := v, state := Error))
  {
  }

  /** A fatal verdict: ERROR keeps the invariant. */
  lemma ErrorStep(prefs: Prefs, s: Snapshot, v: ErrorValue)
    requires Inv(prefs, s)
    ensures StepOk(prefs, s, s.(errorVal := v, state := Error))
  {
    ErrorOrder(prefs, s, v);
    ErrorData(s, v);
  }

  // ---------------------------------------------------------------------
  // Opening: greeting, STLS, authentication
  // ---------------------------------------------------------------------

  /** READY and GREETING are handled alike. */
  lemma ReadyAsGreeting(prefs: Prefs, s: Snapshot)
    requires Inv(prefs, s) && s.state == Ready
    ensures Inv(prefs, s.(state := Greeting))
    ensures GreetingNext(prefs, s) == GreetingNext(prefs, s.(state := Greeting))
  {
  }

  lemma GreetingStlsOrder(prefs: Prefs, s: Snapshot)
    requires OrderInv(prefs, s) && s.state == Greeting && prefs.sslPop == SslStartTls
    ensures OrderInv(prefs, GreetingNext(prefs, s))
  {
    OpeningSendOrder(prefs, s, Stls, CmdStls);
  }

  lemma GreetingApopOrder(prefs: Prefs, s: Snapshot)
    requires OrderInv(prefs, s) && s.state == Greeting && prefs.sslPop != SslStartTls && prefs.useApopAuth
    ensures OrderInv(prefs, GreetingNext(prefs, s))
  {
    OpeningSendOrder(prefs, s, GetAuthApop, CmdApop);
  }

  lemma GreetingUserOrder(prefs: Prefs, s: Snapshot)
    requires OrderInv(prefs, s) && s.state == Greeting && prefs.sslPop != SslStartTls && !prefs.useApopAuth
    ensures OrderInv(prefs, GreetingNext(prefs, s))
  {
    OpeningSendOrder(prefs, s, GetAuthUser, CmdUser);
  }

  lemma GreetingData(prefs: Prefs, s: Snapshot)
    requires DataInv(s) && s.state == Greeting
    ensures DataInv(GreetingNext(prefs, s))
  {
  }

  lemma GreetingStep(prefs: Prefs, s: Snapshot)
    requires Inv(prefs, s) && s.state == Greeting
    ensures StepOk(prefs, s, GreetingNext(prefs, s))
  {
    if prefs.sslPop == SslStartTls {
      GreetingStlsOrder(prefs, s);
    } else if prefs.useApopAuth {
      GreetingApopOrder(prefs, s);
    } else {
      GreetingUserOrder(prefs, s);
    }
    GreetingData(prefs, s);
  }

  lemma StlsApopOrder(prefs: Prefs, s: Snapshot)
    requires OrderInv(prefs, s) && s.state == Stls && prefs.useApopAuth
    ensures OrderInv(prefs, AuthSend(prefs, s))
  {
    OpeningSendOrder(prefs, s, GetAuthApop, CmdApop);
  }

  lemma StlsUserOrder(prefs: Prefs, s: Snapshot)
    requires OrderInv(prefs, s) && s.state == Stls && !prefs.useApopAuth
    ensures OrderInv(prefs, AuthSend(prefs, s))
  {
    OpeningSendOrder(prefs, s, GetAuthUser, CmdUser);
  }

  lemma StlsData(prefs: Prefs, s: Snapshot)
    requires DataInv(s) && s.state == Stls
    ensures DataInv(AuthSend(prefs, s))
  {
  }

  lemma StlsStep(prefs: Prefs, s: Snapshot)
    requires Inv(prefs, s) && s.state == Stls
    ensures StepOk(prefs, s, AuthSend(prefs, s))
  {
    if prefs.useApopAuth {
      StlsApopOrder(prefs, s);
    } else {
      StlsUserOrder(prefs, s);
    }
    StlsData(prefs, s);
  }

  lemma UserOrder(prefs: Prefs, s: Snapshot)
    requires OrderInv(prefs, s) && s.state == GetAuthUser
    ensures OrderInv(prefs, Send(s, GetAuthPass, CmdPass))
  {
    OpeningSendOrder(prefs, s, GetAuthPass, CmdPass);
  }

  lemma UserData(s: Snapshot)
    requires DataInv(s) && s.state == GetAuthUser
    ensures DataInv(Send(s, GetAuthPass, CmdPass))
  {
  }

  lemma UserStep(prefs: Prefs, s: Snapshot)
    requires Inv(prefs, s) && s.state == GetAuthUser
    ensures StepOk(prefs, s, Send(s, GetAuthPass, CmdPass))
  {
    UserOrder(prefs, s);
    UserData(s);
  }

  lemma PassOrder(prefs: Prefs, s: Snapshot)
    requires OrderInv(prefs, s) && s.state == GetAuthPass
    ensures OrderInv(prefs, Send(s, GetRangeStat, CmdStat))
  {
    OpeningSendOrder(prefs, s, GetRangeStat, CmdStat);
  }

  lemma PassData(s: Snapshot)
    requires DataInv(s) && s.state == GetAuthPass
    ensures DataInv(Send(s, GetRangeStat, CmdStat))
  {
  }

  lemma PassStep(prefs: Prefs, s: Snapshot)
    requires Inv(prefs, s) && s.state == GetAuthPass
    ensures StepOk(prefs, s, Send(s, GetRangeStat, CmdStat))
  {
    PassOrder(prefs, s);
    PassData(s);
  }

  lemma ApopOrder(prefs: Prefs, s: Snapshot)
    requires OrderInv(prefs, s) && s.state == GetAuthApop
    ensures OrderInv(prefs, Send(s, GetRangeStat, CmdStat))
  {
    OpeningSendOrder(prefs, s, GetRangeStat, CmdStat);
  }

  lemma ApopData(s: Snapshot)
    requires DataInv(s) && s.state == GetAuthApop
    ensures DataInv(Send(s, GetRangeStat, CmdStat))
  {
  }

  lemma ApopStep(prefs: Prefs, s: Snapshot)
    requires Inv(prefs, s) && s.state == GetAuthApop
    ensures StepOk(prefs, s, Send(s, GetRangeStat, CmdStat))
  {
    ApopOrder(prefs, s);
    ApopData(s);
  }

  // ---------------------------------------------------------------------
  // Message range: STAT, UIDL, LAST
  // ---------------------------------------------------------------------

  /** What GETRANGE_STAT leads to once the count n is parsed. */
  function AfterStat(s: Snapshot, n: int): Snapshot {
    var s1 := StatRecv(s, n);
    if s1.count > 0 then Send(s1, GetRangeUidl, CmdUidl) else LogoutSend(s1)
  }

  lemma StatUidlOrder(prefs: Prefs, s: Snapshot, n: int)
    requires OrderInv(prefs, s) && s.state == GetRangeStat && n > 0
    ensures OrderInv(prefs, AfterStat(s, n))
  {
    NoTops(s.outbox, 3);
    LowMilestones(s.outbox, n);
    SendOrder(prefs, StatRecv(s, n), GetRangeUidl, CmdUidl);
  }

  lemma StatQuitOrder(prefs: Prefs, s: Snapshot, n: int)
    requires OrderInv(prefs, s) && s.state == GetRangeStat && n <= 0
    ensures OrderInv(prefs, AfterStat(s, n))
  {
    var s1 := StatRecv(s, n);
    assert s1 == s.(count := n);
    NoTops(s.outbox, 3);
    LowMilestones(s.outbox, n);
    SendOrder(prefs, s1, Logout, CmdQuit);
  }

  lemma StatData(s: Snapshot, n: int)
    requires DataInv(s) && s.state == GetRangeStat
    ensures DataInv(AfterStat(s, n))
  {
  }

  lemma StatStep(prefs: Prefs, s: Snapshot, n: int)
    requires Inv(prefs, s) && s.state == GetRangeStat
    ensures StepOk(prefs, s, AfterStat(s, n))
  {
    if n > 0 {
      StatUidlOrder(prefs, s, n);
    } else {
      StatQuitOrder(prefs, s, n);
    }
    StatData(s, n);
  }

  lemma LastListOrder(prefs: Prefs, s: Snapshot, m: int)
    requires OrderInv(prefs, s) && s.state == GetRangeLast && m > 0
    ensures OrderInv(prefs, AfterLast(s.(curMsg := m)))
  {
    var s1 := s.(curMsg := m);
    OrderFree(prefs, s, s1);
    NoTops(s1.outbox, 5);
    SendOrder(prefs, s1, GetSizeList, CmdList);
  }

  lemma LastQuitOrder(prefs: Prefs, s: Snapshot, m: int)
    requires OrderInv(prefs, s) && s.state == GetRangeLast && m <= 0
    ensures OrderInv(prefs, AfterLast(s.(curMsg := m)))
  {
    var s1 := s.(curMsg := m);
    OrderFree(prefs, s, s1);
    QuitOrder(prefs, s1);
  }

  lemma LastData(s: Snapshot, m: int)
    requires DataInv(s) && s.state == GetRangeLast
    ensures DataInv(AfterLast(s.(curMsg := m)))
  {
  }

  lemma LastStep(prefs: Prefs, s: Snapshot, m: int)
    requires Inv(prefs, s) && s.state == GetRangeLast
    ensures StepOk(prefs, s, AfterLast(s.(curMsg := m)))
  {
    if m > 0 {
      LastListOrder(prefs, s, m);
    } else {
      LastQuitOrder(prefs, s, m);
    }
    LastData(s, m);
  }

  lemma UidlFallbackOrder(prefs: Prefs, s: Snapshot)
    requires OrderInv(prefs, s) && s.state == GetRangeUidl
    ensures OrderInv(prefs, Send(s.(errorVal := PsSuccess), GetRangeLast, CmdLast))
  {
    NoTops(s.outbox, 4);
    SendOrder(prefs, s.(errorVal := PsSuccess), GetRangeLast, CmdLast);
  }

  lemma UidlFallbackData(s: Snapshot)
    requires DataInv(s) && s.state == GetRangeUidl
    ensures DataInv(Send(s.(errorVal := PsSuccess), GetRangeLast, CmdLast))
  {
  }

  lemma UidlFallbackStep(prefs: Prefs, s: Snapshot)
    requires Inv(prefs, s) && s.state == GetRangeUidl
    ensures StepOk(prefs, s, Send(s.(errorVal := PsSuccess), GetRangeLast, CmdLast))
  {
    UidlFallbackOrder(prefs, s);
    UidlFallbackData(s);
  }

  // ---------------------------------------------------------------------
  // Entering a block state, and LOGOUT to DONE: only the state changes
  // ---------------------------------------------------------------------

  lemma UidlBlockStep(prefs: Prefs, s: Snapshot)
    requires Inv(prefs, s) && s.state == GetRangeUidl
    ensures StepOk(prefs, s, s.(state := GetRangeUidlRecv))
  {
  }

  lemma ListBlockStep(prefs: Prefs, s: Snapshot)
    requires Inv(prefs, s) && s.state == GetSizeList
    ensures StepOk(prefs, s, s.(state := GetSizeListRecv))
  {
  }

  lemma TopBlockStep(prefs: Prefs, s: Snapshot)
    requires Inv(prefs, s) && s.state == Top
    ensures StepOk(prefs, s, s.(state := TopRecv))
  {
  }

  lemma DoneOrder(prefs: Prefs, s: Snapshot)
    requires OrderInv(prefs, s) && s.state == Logout
    ensures OrderInv(prefs, s.(state := Done))
  {
  }

  lemma DoneData(s: Snapshot)
    requires DataInv(s) && s.state == Logout
    ensures DataInv(s.(state := Done))
  {
  }

  lemma DoneStep(prefs: Prefs, s: Snapshot)
    requires Inv(prefs, s) && s.state == Logout
    ensures StepOk(prefs, s, s.(state := Done))
  {
    DoneOrder(prefs, s);
    DoneData(s);
  }

  // ---------------------------------------------------------------------
  // The DELE queue
  // ---------------------------------------------------------------------

  /** What DELETE leads to once the DELE at delete_cur is acknowledged. */
  function AfterDele(s: Snapshot): Snapshot
    requires HandlerReady(s) && s.state == Delete
  {
    var s1 := DeleteRecv(s);
    if s.deleteCur + 1 < |s.deleteArray.value| then DeleteSend(s1.(deleteCur := s.deleteCur + 1)).next
    else s1.(deleteArray := None, deleteCur := 0, state := Idle)
  }

  /** After an acknowledged DELE with entries left: the next DELE. */
  lemma DeleNextShape(s: Snapshot)
    requires HandlerReady(s) && s.state == Delete
    requires 0 <= s.deleteCur && s.deleteCur + 1 < |s.deleteArray.value|
    ensures var n := s.deleteArray.value[s.deleteCur + 1];
      AfterDele(s) == Send(s.(msg := DeleteRecv(s).msg, deleteCur := s.deleteCur + 1, curMsg := n), Delete, CmdDele(n))
  {
  }

  lemma DeleNextOrder(prefs: Prefs, s: Snapshot)
    requires Inv(prefs, s) && s.state == Delete && s.deleteCur + 1 < |s.deleteArray.value|
    ensures OrderInv(prefs, AfterDele(s))
  {
    var n := s.deleteArray.value[s.deleteCur + 1];
    DeleNextShape(s);
    SendOrder(prefs, s.(msg := DeleteRecv(s).msg, deleteCur := s.deleteCur + 1, curMsg := n), Delete, CmdDele(n));
  }

  lemma DeleLastOrder(prefs: Prefs, s: Snapshot)
    requires Inv(prefs, s) && s.state == Delete && s.deleteCur + 1 >= |s.deleteArray.value|
    ensures OrderInv(prefs, AfterDele(s))
  {
  }

  lemma DeleData(s: Snapshot)
    requires DataInv(s) && s.state == Delete
    ensures DataInv(AfterDele(s))
  {
  }

  lemma DeleMarks(s: Snapshot)
    requires DataInv(s) && s.state == Delete
    ensures AtMostOneSent(s.outbox, AfterDele(s).outbox) && MarksKept(s, AfterDele(s))
  {
  }

  lemma DeleStep(prefs: Prefs, s: Snapshot)
    requires Inv(prefs, s) && s.state == Delete
    ensures StepOk(prefs, s, AfterDele(s))
  {
    if s.deleteCur + 1 < |s.deleteArray.value| {
      DeleNextOrder(prefs, s);
    } else {
      DeleLastOrder(prefs, s);
    }
    DeleData(s);
    DeleMarks(s);
  }

  // ---------------------------------------------------------------------
  // The end of the UIDL and LIST blocks
  // ---------------------------------------------------------------------

  lemma UidlQuitOrder(prefs: Prefs, s: Snapshot)
    requires OrderInv(prefs, s) && s.state == GetRangeUidlRecv
    ensures OrderInv(prefs, LogoutSend(s))
  {
    NoTops(s.outbox, 4);
    SendOrder(prefs, s, Logout, CmdQuit);
  }

  lemma UidlListOrder(prefs: Prefs, s: Snapshot)
    requires OrderInv(prefs, s) && s.state == GetRangeUidlRecv
    ensures OrderInv(prefs, Send(s, GetSizeList, CmdList))
  {
    NoTops(s.outbox, 4);
    assert Sent(s.outbox, CmdUidl) && Milestones(s.outbox, s.count);
    SendOrder(prefs, s, GetSizeList, CmdList);
  }

  lemma UidlDoneData(s: Snapshot)
    requires DataInv(s) && s.state == GetRangeUidlRecv
    ensures DataInv(LogoutSend(s)) && DataInv(Send(s, GetSizeList, CmdList))
  {
  }

  lemma UidlDoneStep(prefs: Prefs, s: Snapshot, parsedOk: bool)
    requires Inv(prefs, s) && s.state == GetRangeUidlRecv
    ensures StepOk(prefs, s, RecvDataFinished(s, parsedOk).next)
  {
    if parsedOk {
      if s.cancelled {
        UidlQuitOrder(prefs, s);
      } else {
        UidlListOrder(prefs, s);
      }
      UidlDoneData(s);
    }
  }

  lemma ListQuitOrder(prefs: Prefs, s: Snapshot)
    requires OrderInv(prefs, s) && s.state == GetSizeListRecv
    ensures OrderInv(prefs, LogoutSend(s.(curMsg := 1)))
  {
    var s1 := s.(curMsg := 1);
    NoTops(s.outbox, 6);
    assert Milestones(s1.outbox, s1.count);
    SendOrder(prefs, s1, Logout, CmdQuit);
  }

  lemma ListTopOrder(prefs: Prefs, s: Snapshot)
    requires OrderInv(prefs, s) && s.state == GetSizeListRecv && s.count > 0
    ensures OrderInv(prefs, TopSend(s.(curMsg := 1)))
  {
    var s1 := s.(curMsg := 1);
    NoTops(s.outbox, 6);
    assert Sent(s1.outbox, CmdUidl) && Sent(s1.outbox, CmdList);
    assert Milestones(s1.outbox, s1.count);
    assert TopSend(s1) == Send(s1, Top, CmdTop(1));
    SendOrder(prefs, s1, Top, CmdTop(1));
  }

  lemma ListDoneData(s: Snapshot)
    requires DataInv(s) && s.state == GetSizeListRecv
    ensures DataInv(LogoutSend(s.(curMsg := 1))) && DataInv(TopSend(s.(curMsg := 1)))
  {
  }

  lemma ListDoneStep(prefs: Prefs, s: Snapshot, parsedOk: bool)
    requires Inv(prefs, s) && s.state == GetSizeListRecv
    ensures StepOk(prefs, s, RecvDataFinished(s, parsedOk).next)
  {
    if parsedOk {
      if s.cancelled || s.count == 0 {
        ListQuitOrder(prefs, s);
      } else {
        ListTopOrder(prefs, s);
      }
      ListDoneData(s);
    }
  }

  lemma RecvDataFinishedKeepsInv(prefs: Prefs, s: Snapshot, parsedOk: bool)
    requires Inv(prefs, s)
    ensures StepOk(prefs, s, RecvDataFinished(s, parsedOk).next)
  {
    if s.state == GetRangeUidlRecv {
      UidlDoneStep(prefs, s, parsedOk);
    } else if s.state == GetSizeListRecv {
      ListDoneStep(prefs, s, parsedOk);
    }
  }

  // ---------------------------------------------------------------------
  // The end of a TOP block
  // ---------------------------------------------------------------------

  /** The snapshot once rpop3_top_recv has added the row. */
  function WithRow(env: Env, s: Snapshot, h: Header): Snapshot {
    s.(rows := s.rows + [HeaderRow(env, s.curMsg, h)])
  }

  lemma HeaderQuitOrder(env: Env, s: Snapshot, h: Header)
    requires OrderInv(env.prefs, s) && s.state == TopRecv
    ensures OrderInv(env.prefs, LogoutSend(WithRow(env, s, h)))
  {
    OrderFree(env.prefs, s, WithRow(env, s, h));
    QuitOrder(env.prefs, WithRow(env, s, h));
  }

  /** TOP for the next message, while the loop is not at count. */
  lemma NextTopOrder(prefs: Prefs, s: Snapshot)
    requires OrderInv(prefs, s) && s.state == TopRecv && s.curMsg < s.count
    ensures OrderInv(prefs, TopSend(s.(curMsg := s.curMsg + 1)))
  {
    SendOrder(prefs, s.(curMsg := s.curMsg + 1), Top, CmdTop(s.curMsg + 1));
  }

  lemma HeaderNextOrder(env: Env, s: Snapshot, h: Header)
    requires OrderInv(env.prefs, s) && s.state == TopRecv && s.curMsg < s.count
    ensures OrderInv(env.prefs, TopSend(WithRow(env, s, h).(curMsg := s.curMsg + 1)))
  {
    var s1 := WithRow(env, s, h);
    assert s1.curMsg == s.curMsg;
    OrderFree(env.prefs, s, s1);
    NextTopOrder(env.prefs, s1);
    assert TopSend(s1.(curMsg := s1.curMsg + 1)) == TopSend(WithRow(env, s, h).(curMsg := s.curMsg + 1));
  }

  lemma HeaderIdleOrder(env: Env, s: Snapshot, h: Header)
    requires OrderInv(env.prefs, s) && s.state == TopRecv && s.curMsg == s.count
    ensures OrderInv(env.prefs, WithRow(env, s, h).(state := Idle))
  {
    var t := WithRow(env, s, h).(state := Idle);
    assert t.outbox == s.outbox && t.count == s.count && t.state == Idle;
    IdleOrder(env.prefs, s, t);
  }

  /** Leaving the header loop for IDLE once every TOP has been answered. */
  lemma IdleOrder(prefs: Prefs, s: Snapshot, t: Snapshot)
    requires OrderInv(prefs, s) && s.state == TopRecv && s.curMsg == s.count
    requires t.outbox == s.outbox && t.count == s.count && t.state == Idle
    ensures OrderInv(prefs, t)
  {
    RankBoundUp(s.outbox, 7, 8);
    assert TopsCounted(t);
    assert OpeningProgress(prefs, t);
  }

  lemma HeaderRowData(env: Env, s: Snapshot, h: Header)
    requires DataInv(s) && s.state == TopRecv
    ensures RowsNumbered(WithRow(env, s, h).rows, |s.msg|)
    ensures |WithRow(env, s, h).rows| == s.curMsg
  {
  }

  lemma HeaderQuitData(env: Env, s: Snapshot, h: Header)
    requires DataInv(s) && s.state == TopRecv
    ensures DataInv(LogoutSend(WithRow(env, s, h)))
  {
    HeaderRowData(env, s, h);
  }

  lemma HeaderNextData(env: Env, s: Snapshot, h: Header)
    requires DataInv(s) && s.state == TopRecv && s.curMsg < s.count
    ensures DataInv(TopSend(WithRow(env, s, h).(curMsg := s.curMsg + 1)))
  {
    HeaderRowData(env, s, h);
  }

  lemma HeaderIdleData(env: Env, s: Snapshot, h: Header)
    requires DataInv(s) && s.state == TopRecv && s.curMsg >= s.count
    ensures DataInv(WithRow(env, s, h).(state := Idle))
  {
    HeaderRowData(env, s, h);
  }

  lemma HeaderQuitStep(env: Env, s: Snapshot, h: Header)
    requires Inv(env.prefs, s) && s.state == TopRecv
    ensures StepOk(env.prefs, s, LogoutSend(WithRow(env, s, h)))
  {
    HeaderQuitOrder(env, s, h);
    HeaderQuitData(env, s, h);
  }

  lemma HeaderNextStep(env: Env, s: Snapshot, h: Header)
    requires Inv(env.prefs, s) && s.state == TopRecv && s.curMsg < s.count
    ensures StepOk(env.prefs, s, TopSend(WithRow(env, s, h).(curMsg := s.curMsg + 1)))
  {
    HeaderNextOrder(env, s, h);
    HeaderNextData(env, s, h);
  }

  lemma HeaderIdleStep(env: Env, s: Snapshot, h: Header)
    requires Inv(env.prefs, s) && s.state == TopRecv && s.curMsg >= s.count
    ensures StepOk(env.prefs, s, WithRow(env, s, h).(state := Idle))
  {
    HeaderIdleOrder(env, s, h);
    HeaderIdleData(env, s, h);
  }

  lemma RecvDataAsFileFinishedKeepsInv(env: Env, s: Snapshot, h: Header)
    requires Inv(env.prefs, s)
    ensures StepOk(env.prefs, s, RecvDataAsFileFinished(env, s, h).next)
  {
    if s.state == TopRecv {
      var t := RecvDataAsFileFinished(env, s, h).next;
      if s.cancelled {
        assert t == LogoutSend(WithRow(env, s, h));
        HeaderQuitStep(env, s, h);
      } else if s.curMsg < s.count {
        assert t == TopSend(WithRow(env, s, h).(curMsg := s.curMsg + 1));
        HeaderNextStep(env, s, h);
      } else {
        assert t == WithRow(env, s, h).(state := Idle);
        HeaderIdleStep(env, s, h);
      }
    }
  }

  // ---------------------------------------------------------------------
  // The two buttons
  // ---------------------------------------------------------------------

  /** The snapshot once the selection is queued and marked. */
  function Queued(s: Snapshot, sel: seq<nat>): Snapshot
    requires InRows(sel, s.rows)
  {
    var m := Queue(s.rows, sel);
    s.(rows := m.rows, deleteArray := Some(m.queue), deleteCur := 0)
  }

  /** The first DELE of a queue starting at message n. */
  lemma DeleteStartOrder(prefs: Prefs, s: Snapshot, n: int)
    requires OrderInv(prefs, s) && s.state == Idle
    ensures OrderInv(prefs, Send(s.(curMsg := n), Delete, CmdDele(n)))
  {
    SendOrder(prefs, s.(curMsg := n), Delete, CmdDele(n));
  }

  lemma QueuedFacts(s: Snapshot, sel: seq<nat>)
    requires RowsNumbered(s.rows, |s.msg|) && InRows(sel, s.rows)
    ensures var m := Queue(s.rows, sel);
      && RowsNumbered(m.rows, |s.msg|)
      && (forall j :: 0 <= j < |m.queue| ==> 1 <= m.queue[j] <= |s.rows| && m.queue[j] < |s.msg|)
      && |m.rows| == |s.rows|
      && (forall i :: 0 <= i < |s.rows| && s.rows[i].deleted ==> m.rows[i].deleted)
  {
    QueueMarks(s.rows, sel);
    QueueEntries(s.rows, sel);
  }

  lemma DeleteStartShape(s: Snapshot, sel: seq<nat>)
    requires InRows(sel, s.rows) && |Queue(s.rows, sel).queue| > 0
    ensures var n := Queue(s.rows, sel).queue[0];
      DeleteSend(Queued(s, sel)).next == Send(Queued(s, sel).(curMsg := n), Delete, CmdDele(n))
  {
  }

  /** Entering DELETE from IDLE with a non-empty queue whose entries name
      rows and records. */
  lemma DeleteEntryData(s: Snapshot, t: Snapshot, q: seq<nat>)
    requires DataInv(s) && s.state == Idle
    requires t.state == Delete && t.count == s.count && t.msg == s.msg
    requires RowsNumbered(t.rows, |s.msg|) && |t.rows| == |s.rows|
    requires |q| > 0 && t.deleteArray == Some(q) && t.deleteCur == 0 && t.curMsg == q[0]
    requires forall j :: 0 <= j < |q| ==> 1 <= q[j] <= |s.rows| && q[j] < |s.msg|
    ensures DataInv(t)
  {
  }

  lemma DeleteStartData(s: Snapshot, sel: seq<nat>)
    requires DataInv(s) && s.state == Idle && InRows(sel, s.rows)
    requires |Queue(s.rows, sel).queue| > 0
    ensures var n := Queue(s.rows, sel).queue[0];
      DataInv(Send(Queued(s, sel).(curMsg := n), Delete, CmdDele(n)))
  {
    var m := Queue(s.rows, sel);
    QueuedFacts(s, sel);
    DeleteEntryData(s, Send(Queued(s, sel).(curMsg := m.queue[0]), Delete, CmdDele(m.queue[0])), m.queue);
  }

  /** Queuing the selection clears no mark and drops no row. */
  lemma DeleteStartMarks(s: Snapshot, sel: seq<nat>, t: Snapshot)
    requires InRows(sel, s.rows)
    requires t.msg == s.msg && t.rows == Queue(s.rows, sel).rows
    ensures MarksKept(s, t)
  {
    QueueMarks(s.rows, sel);
  }

  lemma DeleteStartStep(prefs: Prefs, s: Snapshot, sel: seq<nat>)
    requires Inv(prefs, s) && s.state == Idle && InRows(sel, s.rows)
    requires |Queue(s.rows, sel).queue| > 0
    ensures StepOk(prefs, s, DeleteSend(Queued(s, sel)).next)
  {
    var n := Queue(s.rows, sel).queue[0];
    var s2 := Queued(s, sel);
    var t := Send(s2.(curMsg := n), Delete, CmdDele(n));
    DeleteStartShape(s, sel);
    DeleteStartOrder(prefs, s2, n);
    DeleteStartData(s, sel);
    DeleteStartMarks(s, sel, t);
    assert AtMostOneSent(s.outbox, t.outbox);
  }

  lemma DeleteNothingStep(prefs: Prefs, s: Snapshot, sel: seq<nat>)
    requires Inv(prefs, s) && s.state == Idle && InRows(sel, s.rows)
    ensures StepOk(prefs, s, s.(rows := Queue(s.rows, sel).rows))
  {
    QueuedFacts(s, sel);
  }

  lemma DeleteButtonKeepsInv(prefs: Prefs, s: Snapshot, confirmed: bool, sel: seq<nat>)
    requires Inv(prefs, s) && InRows(sel, s.rows)
    ensures StepOk(prefs, s, DeleteButton(s, confirmed, sel))
  {
    if s.state == Idle && confirmed {
      if |Queue(s.rows, sel).queue| > 0 {
        DeleteStartStep(prefs, s, sel);
      } else {
        DeleteNothingStep(prefs, s, sel);
      }
    }
  }

  lemma CloseIdleOrder(prefs: Prefs, s: Snapshot)
    requires OrderInv(prefs, s) && s.state == Idle
    ensures OrderInv(prefs, LogoutSend(s.(finished := true)))
  {
    SendOrder(prefs, s.(finished := true), Logout, CmdQuit);
  }

  lemma CloseIdleData(s: Snapshot)
    requires DataInv(s) && s.state == Idle
    ensures DataInv(LogoutSend(s.(finished := true)))
  {
  }

  lemma CloseFlags(prefs: Prefs, s: Snapshot)
    requires Inv(prefs, s)
    ensures Inv(prefs, s.(finished := true, cancelled := true))
  {
  }

  lemma CloseButtonKeepsInv(prefs: Prefs, s: Snapshot)
    requires Inv(prefs, s)
    ensures StepOk(prefs, s, CloseButton(s))
  {
    if s.state == Idle {
      CloseIdleOrder(prefs, s);
      CloseIdleData(s);
    } else {
      CloseFlags(prefs, s);
    }
  }

  // ---------------------------------------------------------------------
  // The handlers and the whole run
  // ---------------------------------------------------------------------

  /** The LAST reply is not supported: LAST counts as answered with cur_msg unchanged. */
  lemma LastFallbackStep(prefs: Prefs, s: Snapshot)
    requires Inv(prefs, s) && s.state == GetRangeLast
    ensures StepOk(prefs, s, AfterLast(s.(errorVal := PsSuccess)))
  {
    var s1 := s.(errorVal := PsSuccess);
    ErrorValFree(prefs, s, PsSuccess);
    assert s1.(curMsg := s1.curMsg) == s1;
    LastStep(prefs, s1, s1.curMsg);
  }

  /** The states before STAT's reply. */
  lemma DispatchOpeningKeepsInv(env: Env, s: Snapshot, v: ErrorValue, body: string)
    requires Inv(env.prefs, s) && HandlerReady(s) && StateRank(s.state) <= 2 && s.state != Error
    ensures StepOk(env.prefs, s, Dispatch(env, s, v, body).next)
  {
    match s.state
    case Ready =>
      ReadyAsGreeting(env.prefs, s);
      GreetingStep(env.prefs, s.(state := Greeting));
    case Greeting => GreetingStep(env.prefs, s);
    case Stls => if env.stlsOk { StlsStep(env.prefs, s); }
    case GetAuthUser => UserStep(env.prefs, s);
    case GetAuthPass => PassStep(env.prefs, s);
    case GetAuthApop => ApopStep(env.prefs, s);
  }

  /** What the replies to STAT and LAST lead to, one outcome at a time. */
  lemma StatShape(env: Env, s: Snapshot, v: ErrorValue, body: string, n: int)
    requires HandlerReady(s) && s.state == GetRangeStat && env.statRecv(body) == Some(n)
    ensures Dispatch(env, s, v, body).next == AfterStat(s, n)
  {
  }

  lemma LastFallbackShape(env: Env, s: Snapshot, v: ErrorValue, body: string)
    requires HandlerReady(s) && s.state == GetRangeLast && v == PsNotSupported
    ensures Dispatch(env, s, v, body).next == AfterLast(s.(errorVal := PsSuccess))
  {
  }

  lemma LastShape(env: Env, s: Snapshot, v: ErrorValue, body: string, m: int)
    requires HandlerReady(s) && s.state == GetRangeLast && v != PsNotSupported
    requires env.lastRecv(body) == Some(m)
    ensures Dispatch(env, s, v, body).next == AfterLast(s.(curMsg := m))
  {
  }

  lemma RangeRejectShape(env: Env, s: Snapshot, v: ErrorValue, body: string)
    requires HandlerReady(s)
    requires (s.state == GetRangeStat && env.statRecv(body).None?)
          || (s.state == GetRangeLast && v != PsNotSupported && env.lastRecv(body).None?)
    ensures Dispatch(env, s, v, body).next == s
  {
  }

  /** A reply that changes nothing keeps the invariant. */
  lemma StepOkStay(prefs: Prefs, s: Snapshot)
    requires Inv(prefs, s)
    ensures StepOk(prefs, s, s)
  {
  }

  /** The replies to STAT and LAST. */
  lemma DispatchRangeKeepsInv(env: Env, s: Snapshot, v: ErrorValue, body: string)
    requires Inv(env.prefs, s) && HandlerReady(s)
    requires s.state == GetRangeStat || s.state == GetRangeLast
    ensures StepOk(env.prefs, s, Dispatch(env, s, v, body).next)
  {
    if s.state == GetRangeStat && env.statRecv(body).Some? {
      var n := env.statRecv(body).value;
      StatShape(env, s, v, body, n);
      StatStep(env.prefs, s, n);
    } else if s.state == GetRangeLast && v == PsNotSupported {
      LastFallbackShape(env, s, v, body);
      LastFallbackStep(env.prefs, s);
    } else if s.state == GetRangeLast && env.lastRecv(body).Some? {
      var m := env.lastRecv(body).value;
      LastShape(env, s, v, body, m);
      LastStep(env.prefs, s, m);
    } else {
      RangeRejectShape(env, s, v, body);
      StepOkStay(env.prefs, s);
    }
  }

  /** The replies that open a block, and UIDL's fallback to LAST. */
  lemma DispatchBlockKeepsInv(env: Env, s: Snapshot, v: ErrorValue, body: string)
    requires Inv(env.prefs, s) && HandlerReady(s)
    requires s.state == GetRangeUidl || s.state == GetSizeList || s.state == Top
    ensures StepOk(env.prefs, s, Dispatch(env, s, v, body).next)
  {
    if s.state == GetRangeUidl {
      if v == PsNotSupported { UidlFallbackStep(env.prefs, s); } else { UidlBlockStep(env.prefs, s); }
    } else if s.state == GetSizeList {
      ListBlockStep(env.prefs, s);
    } else {
      TopBlockStep(env.prefs, s);
    }
  }

  /** DELETE, LOGOUT and the states in which a reply changes nothing. */
  lemma DispatchLateKeepsInv(env: Env, s: Snapshot, v: ErrorValue, body: string)
    requires Inv(env.prefs, s) && HandlerReady(s) && StateRank(s.state) >= 8
    ensures StepOk(env.prefs, s, Dispatch(env, s, v, body).next)
  {
    if s.state == Delete {
      DeleStep(env.prefs, s);
    } else if s.state == Logout {
      DoneStep(env.prefs, s);
    }
  }

  lemma DispatchKeepsInv(env: Env, s: Snapshot, v: ErrorValue, body: string)
    requires Inv(env.prefs, s) && HandlerReady(s)
    ensures StepOk(env.prefs, s, Dispatch(env, s, v, body).next)
  {
    if StateRank(s.state) <= 2 && s.state != Error {
      DispatchOpeningKeepsInv(env, s, v, body);
    } else if s.state == GetRangeStat || s.state == GetRangeLast {
      DispatchRangeKeepsInv(env, s, v, body);
    } else if s.state == GetRangeUidl || s.state == GetSizeList || s.state == Top {
      DispatchBlockKeepsInv(env, s, v, body);
    } else if StateRank(s.state) >= 8 {
      DispatchLateKeepsInv(env, s, v, body);
    } else {
      assert s.state == GetRangeUidlRecv || s.state == GetSizeListRecv || s.state == TopRecv;
    }
  }

  /** A reply that is not fatal: dispatch from the snapshot with the verdict recorded. */
  lemma DispatchAfterVerdict(env: Env, s: Snapshot, e: ErrorValue, v: ErrorValue, body: string)
    requires Inv(env.prefs, s) && HandlerReady(s)
    ensures StepOk(env.prefs, s, Dispatch(env, s.(errorVal := e), v, body).next)
  {
    var s1 := s.(errorVal := e);
    ErrorValFree(env.prefs, s, e);
    DispatchKeepsInv(env, s1, v, body);
    StepOkFrom(env.prefs, s, s1, Dispatch(env, s1, v, body).next);
  }

  lemma RecvMsgKeepsInv(env: Env, s: Snapshot, line: string)
    requires Inv(env.prefs, s) && HandlerReady(s)
    ensures StepOk(env.prefs, s, RecvMsg(env, s, line).next)
  {
    if s.state != GetRangeUidlRecv && s.state != GetSizeListRecv {
      var v := env.ok(s.state, line);
      if Fatal(v) {
        ErrorStep(env.prefs, s, v);
      } else if v != PsSuccess {
        DispatchAfterVerdict(env, s, v, v, Pop3Reply.Body(line));
      } else {
        DispatchKeepsInv(env, s, v, Pop3Reply.Body(line));
      }
    } else {
      DispatchKeepsInv(env, s, PsSuccess, line);
    }
  }

  /** Every event the window can deliver keeps the invariant. */
  lemma StepKeepsInv(env: Env, s: Snapshot, e: Event)
    requires Inv(env.prefs, s) && Enabled(s, e)
    ensures StepOk(env.prefs, s, Step(env, s, e))
  {
    match e
    case Line(text) => RecvMsgKeepsInv(env, s, text);
    case Block(parsedOk) => RecvDataFinishedKeepsInv(env.prefs, s, parsedOk);
    case File(h) => RecvDataAsFileFinishedKeepsInv(env, s, h);
    case DeleteClicked(confirmed, sel) => DeleteButtonKeepsInv(env.prefs, s, confirmed, sel);
    case CloseClicked => CloseButtonKeepsInv(env.prefs, s);
  }

  /** A step, or a dropped event. */
  function StepOrSkip(env: Env, s: Snapshot, e: Event): Snapshot {
    if Enabled(s, e) then Step(env, s, e) else s
  }

  lemma StepOrSkipKeepsInv(env: Env, s: Snapshot, e: Event)
    requires Inv(env.prefs, s)
    ensures StepOk(env.prefs, s, StepOrSkip(env, s, e))
  {
    if Enabled(s, e) {
      StepKeepsInv(env, s, e);
    }
  }

  /** What a run guarantees between its first and its last snapshot. */
  ghost predicate RunOk(s: Snapshot, t: Snapshot) {
    && |s.outbox| <= |t.outbox| && t.outbox[..|s.outbox|] == s.outbox
    && MarksKept(s, t)
  }

  lemma RunOkTrans(s: Snapshot, t: Snapshot, u: Snapshot)
    requires RunOk(s, t) && RunOk(t, u)
    ensures RunOk(s, u)
  {
    assert u.outbox[..|t.outbox|][..|s.outbox|] == u.outbox[..|s.outbox|];
  }

  /** Over any run the invariant holds. */
  lemma {:induction false} RunKeepsInv(env: Env, s: Snapshot, evs: seq<Event>)
    requires Inv(env.prefs, s)
    ensures Inv(env.prefs, Run(env, s, evs))
    decreases |evs|
  {
    if evs != [] {
      var s1 := StepOrSkip(env, s, evs[0]);
      StepOrSkipKeepsInv(env, s, evs[0]);
      RunKeepsInv(env, s1, evs[1..]);
    }
  }

  /** Over any run the commands already written stay written and no
      deletion mark is cleared. */
  lemma {:induction false} RunKeepsMarks(env: Env, s: Snapshot, evs: seq<Event>)
    requires Inv(env.prefs, s)
    ensures RunOk(s, Run(env, s, evs))
    decreases |evs|
  {
    if evs == [] {
      assert s.outbox[..|s.outbox|] == s.outbox;
    } else {
      var s1 := StepOrSkip(env, s, evs[0]);
      StepOrSkipKeepsInv(env, s, evs[0]);
      RunKeepsMarks(env, s1, evs[1..]);
      RunOkTrans(s, s1, Run(env, s1, evs[1..]));
    }
  }
}
