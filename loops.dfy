/** The two loops the dispatcher runs across several events: the header loop
    (TOP for each message, one row per TOP block) and the deletion loop (one
    DELE per queue entry), stated on Rpop3Spec.Run. */
module Rpop3Loops {
  import opened Pop3Types
  import opened Rpop3Spec
  import opened Rpop3Replies
  import opened Rpop3Props

  // ---------------------------------------------------------------------
  // The header loop
  // ---------------------------------------------------------------------

  /** TOP n 0 for n = from, from + 1, ..., to. */
  function TopsFrom(from: int, to: int): (cs: seq<Command>)
    decreases to - from
    ensures |cs| == if from <= to then to - from + 1 else 0
    ensures forall i :: 0 <= i < |cs| ==> cs[i] == CmdTop(from + i)
  {
    if from > to then [] else [CmdTop(from)] + TopsFrom(from + 1, to)
  }

  /** The rows the header loop adds for messages n, n + 1, ... */
  function HeaderRows(env: Env, n: int, hs: seq<Header>): (rs: seq<Row>)
    decreases hs
    ensures |rs| == |hs|
  {
    if hs == [] then [] else [HeaderRow(env, n, hs[0])] + HeaderRows(env, n + 1, hs[1..])
  }

  /** Row i of HeaderRows is the row of message n + i, built from header i. */
  lemma {:induction false} HeaderRowsAt(env: Env, n: int, hs: seq<Header>)
    ensures forall i :: 0 <= i < |hs| ==> HeaderRows(env, n, hs)[i] == HeaderRow(env, n + i, hs[i])
    decreases hs
  {
    if hs != [] {
      HeaderRowsAt(env, n + 1, hs[1..]);
      var rs := HeaderRows(env, n, hs);
      assert rs == [HeaderRow(env, n, hs[0])] + HeaderRows(env, n + 1, hs[1..]);
      forall i | 1 <= i < |hs| ensures rs[i] == HeaderRow(env, n + i, hs[i]) {
        assert rs[i] == HeaderRows(env, n + 1, hs[1..])[i - 1];
        assert hs[1..][i - 1] == hs[i];
      }
    }
  }

  /** For each header: the TOP reply line, then the TOP block. */
  function HeaderEvents(line: string, hs: seq<Header>): (evs: seq<Event>)
    ensures |evs| == 2 * |hs|
  {
    if hs == [] then [] else [Line(line), File(hs[0])] + HeaderEvents(line, hs[1..])
  }

  lemma HeaderEventsCons(line: string, hs: seq<Header>)
    requires hs != []
    ensures HeaderEvents(line, hs) == [Line(line), File(hs[0])] + HeaderEvents(line, hs[1..])
  {
  }

  lemma AppendAssoc<T>(a: seq<T>, b: seq<T>, c: seq<T>)
    ensures (a + b) + c == a + (b + c)
  {
  }

  /** The snapshot after a round that is not the last: the row is added and
      TOP goes out for the next message. */
  function HeaderNext(env: Env, s: Snapshot, h: Header): Snapshot {
    s.(rows := s.rows + [HeaderRow(env, s.curMsg, h)], curMsg := s.curMsg + 1,
       state := Top, outbox := s.outbox + [CmdTop(s.curMsg + 1)])
  }

  /** The snapshot after the last round. */
  function HeaderLast(env: Env, s: Snapshot, h: Header): Snapshot {
    s.(rows := s.rows + [HeaderRow(env, s.curMsg, h)], state := Idle)
  }

  lemma TwoCons(a: Event, b: Event, rest: seq<Event>)
    ensures [a, b] + rest == [a] + ([b] + rest)
  {
  }

  /** The TOP reply opens the block. */
  lemma HeaderReplyStep(env: Env, s: Snapshot, line: string)
    requires s.state == Top && env.ok(Top, line) == PsSuccess
    ensures Enabled(s, Line(line)) && Step(env, s, Line(line)) == s.(state := TopRecv)
  {
    BlockReply(env, s, line);
  }

  lemma HeaderBlockNext(env: Env, s: Snapshot, h: Header)
    requires s.state == Top && !s.cancelled && s.curMsg < s.count
    ensures Step(env, s.(state := TopRecv), File(h)) == HeaderNext(env, s, h)
  {
    HeaderBlockEnd(env, s.(state := TopRecv), h);
  }

  lemma HeaderBlockLast(env: Env, s: Snapshot, h: Header)
    requires s.state == Top && !s.cancelled && s.curMsg >= s.count
    ensures Step(env, s.(state := TopRecv), File(h)) == HeaderLast(env, s, h)
  {
    HeaderBlockEnd(env, s.(state := TopRecv), h);
  }

  /** One round of the header loop, the TOP reply then its block, when more
      messages follow. */
  lemma HeaderRoundNext(env: Env, s: Snapshot, line: string, h: Header, rest: seq<Event>)
    requires s.state == Top && !s.cancelled && env.ok(Top, line) == PsSuccess && s.curMsg < s.count
    ensures Run(env, s, [Line(line), File(h)] + rest) == Run(env, HeaderNext(env, s, h), rest)
  {
    var s1 := s.(state := TopRecv);
    TwoCons(Line(line), File(h), rest);
    HeaderReplyStep(env, s, line);
    RunCons(env, s, Line(line), [File(h)] + rest, s1);
    HeaderBlockNext(env, s, h);
    RunCons(env, s1, File(h), rest, HeaderNext(env, s, h));
  }

  /** The last round of the header loop. */
  lemma HeaderRoundLast(env: Env, s: Snapshot, line: string, h: Header)
    requires s.state == Top && !s.cancelled && env.ok(Top, line) == PsSuccess && s.curMsg >= s.count
    ensures Run(env, s, [Line(line), File(h)]) == HeaderLast(env, s, h)
  {
    var s1 := s.(state := TopRecv);
    TwoCons(Line(line), File(h), []);
    assert [Line(line), File(h)] + [] == [Line(line), File(h)];
    HeaderReplyStep(env, s, line);
    RunCons(env, s, Line(line), [File(h)], s1);
    HeaderBlockLast(env, s, h);
    RunCons(env, s1, File(h), [], HeaderLast(env, s, h));
  }

  lemma HeaderStepNext(env: Env, s: Snapshot, line: string, hs: seq<Header>)
    requires s.state == Top && !s.cancelled && env.ok(Top, line) == PsSuccess
    requires hs != [] && s.curMsg < s.count
    ensures Run(env, s, HeaderEvents(line, hs)) == Run(env, HeaderNext(env, s, hs[0]), HeaderEvents(line, hs[1..]))
  {
    HeaderEventsCons(line, hs);
    HeaderRoundNext(env, s, line, hs[0], HeaderEvents(line, hs[1..]));
  }

  lemma HeaderStepLast(env: Env, s: Snapshot, line: string, hs: seq<Header>)
    requires s.state == Top && !s.cancelled && env.ok(Top, line) == PsSuccess
    requires |hs| == 1 && s.curMsg >= s.count
    ensures Run(env, s, HeaderEvents(line, hs)) == HeaderLast(env, s, hs[0])
  {
    HeaderEventsCons(line, hs);
    assert HeaderEvents(line, hs[1..]) == [];
    assert HeaderEvents(line, hs) == [Line(line), File(hs[0])];
    HeaderRoundLast(env, s, line, hs[0]);
  }

  /** What the header loop leaves behind, from s with headers hs to come:
      TOP for the messages after cur_msg, one row per header in order, IDLE
      with cur_msg == count, and nothing else changed. */
  ghost predicate HeaderDone(env: Env, s: Snapshot, hs: seq<Header>, t: Snapshot) {
    && t.outbox == s.outbox + TopsFrom(s.curMsg + 1, s.count)
    && t.rows == s.rows + HeaderRows(env, s.curMsg, hs)
    && t == s.(state := Idle, curMsg := s.count, outbox := t.outbox, rows := t.rows)
  }

  lemma HeaderDoneOutbox(s: Snapshot, s2: Snapshot, t: Snapshot)
    requires 1 <= s.curMsg < s.count
    requires s2.outbox == s.outbox + [CmdTop(s.curMsg + 1)] && s2.curMsg == s.curMsg + 1 && s2.count == s.count
    requires t.outbox == s2.outbox + TopsFrom(s2.curMsg + 1, s2.count)
    ensures t.outbox == s.outbox + TopsFrom(s.curMsg + 1, s.count)
  {
    var c := CmdTop(s.curMsg + 1);
    var tops := TopsFrom(s.curMsg + 2, s.count);
    assert TopsFrom(s.curMsg + 1, s.count) == [c] + tops;
    AppendAssoc(s.outbox, [c], tops);
  }

  lemma HeaderDoneRows(env: Env, s: Snapshot, hs: seq<Header>, s2: Snapshot, t: Snapshot)
    requires |hs| >= 2
    requires s2.rows == s.rows + [HeaderRow(env, s.curMsg, hs[0])] && s2.curMsg == s.curMsg + 1
    requires t.rows == s2.rows + HeaderRows(env, s2.curMsg, hs[1..])
    ensures t.rows == s.rows + HeaderRows(env, s.curMsg, hs)
  {
    var row := HeaderRow(env, s.curMsg, hs[0]);
    var rows := HeaderRows(env, s.curMsg + 1, hs[1..]);
    assert HeaderRows(env, s.curMsg, hs) == [row] + rows;
    AppendAssoc(s.rows, [row], rows);
  }

  lemma HeaderDoneShape(s: Snapshot, s2: Snapshot, t: Snapshot)
    requires s2 == s.(rows := s2.rows, curMsg := s.curMsg + 1, state := Top, outbox := s2.outbox)
    requires t == s2.(state := Idle, curMsg := s2.count, outbox := t.outbox, rows := t.rows)
    ensures t == s.(state := Idle, curMsg := s.count, outbox := t.outbox, rows := t.rows)
  {
  }

  lemma HeaderDoneCons(env: Env, s: Snapshot, hs: seq<Header>, t: Snapshot)
    requires 1 <= s.curMsg < s.count && |hs| >= 2
    requires HeaderDone(env, HeaderNext(env, s, hs[0]), hs[1..], t)
    ensures HeaderDone(env, s, hs, t)
  {
    var s2 := HeaderNext(env, s, hs[0]);
    HeaderDoneOutbox(s, s2, t);
    HeaderDoneRows(env, s, hs, s2, t);
    HeaderDoneShape(s, s2, t);
  }

  /** While TOP n 0 is outstanding and the session is not cancelled, the
      replies for messages n..count send TOP n+1..count, add one row per
      message in order, and leave the window IDLE with cur_msg == count. */
  lemma {:induction false} HeaderLoopRun(env: Env, s: Snapshot, line: string, hs: seq<Header>)
    requires s.state == Top && !s.cancelled && env.ok(Top, line) == PsSuccess
    requires 1 <= s.curMsg && |hs| == s.count - s.curMsg + 1 && |hs| >= 1
    ensures HeaderDone(env, s, hs, Run(env, s, HeaderEvents(line, hs)))
    decreases |hs|
  {
    if |hs| == 1 {
      HeaderStepLast(env, s, line, hs);
      assert TopsFrom(s.curMsg + 1, s.count) == [];
      assert HeaderRows(env, s.curMsg, hs) == [HeaderRow(env, s.curMsg, hs[0])];
    } else {
      HeaderStepNext(env, s, line, hs);
      HeaderLoopRun(env, HeaderNext(env, s, hs[0]), line, hs[1..]);
      HeaderDoneCons(env, s, hs, Run(env, HeaderNext(env, s, hs[0]), HeaderEvents(line, hs[1..])));
    }
  }

  // ---------------------------------------------------------------------
  // The deletion loop
  // ---------------------------------------------------------------------

  /** DELE for the queue entries from index k on. */
  function DelesFrom(q: seq<int>, k: nat): (cs: seq<Command>)
    requires k <= |q|
    decreases |q| - k
    ensures |cs| == |q| - k
    ensures forall i :: 0 <= i < |cs| ==> cs[i] == CmdDele(q[k + i])
  {
    if k == |q| then [] else [CmdDele(q[k])] + DelesFrom(q, k + 1)
  }

  /** A DELE queue that can run to its end: every entry names a record. */
  ghost predicate DeleQueue(s: Snapshot) {
    && s.state == Delete && s.deleteArray.Some?
    && 0 <= s.deleteCur < |s.deleteArray.value|
    && s.curMsg == s.deleteArray.value[s.deleteCur]
    && forall j :: 0 <= j < |s.deleteArray.value| ==> 0 <= s.deleteArray.value[j] < |s.msg|
  }

  /** The record an accepted DELE leaves behind. */
  const Erased := MsgRecord(true, RecvTimeDelete)

  /** The snapshot after an accepted DELE reply with entries left. */
  function DeleNext(s: Snapshot): Snapshot
    requires DeleQueue(s) && s.deleteCur + 1 < |s.deleteArray.value|
  {
    var n := s.deleteArray.value[s.deleteCur + 1];
    s.(msg := DeleteRecv(s).msg, deleteCur := s.deleteCur + 1, curMsg := n,
       outbox := s.outbox + [CmdDele(n)])
  }

  lemma DeleNextQueue(s: Snapshot)
    requires DeleQueue(s) && s.deleteCur + 1 < |s.deleteArray.value|
    ensures DeleQueue(DeleNext(s))
  {
  }

  lemma DeleNextRecv(env: Env, s: Snapshot, line: string)
    requires DeleQueue(s) && s.deleteCur + 1 < |s.deleteArray.value| && env.ok(Delete, line) == PsSuccess
    ensures RecvMsg(env, s, line).next == DeleNext(s)
  {
    assert s.deleteArray.value[s.deleteCur] < |s.msg|;
    assert HandlerReady(s) && Accepted(env, s, line);
    DeleNextReply(env, s, line);
  }

  lemma DeleStepNext(env: Env, s: Snapshot, replies: seq<string>)
    requires DeleQueue(s) && s.deleteCur + 1 < |s.deleteArray.value|
    requires replies != [] && env.ok(Delete, replies[0]) == PsSuccess
    ensures Run(env, s, Lines(replies)) == Run(env, DeleNext(s), Lines(replies[1..]))
  {
    DeleNextRecv(env, s, replies[0]);
    LineStep(env, s, replies, DeleNext(s));
  }

  /** The snapshot after the accepted DELE of the last entry. */
  function DeleLast(s: Snapshot): Snapshot
    requires DeleQueue(s)
  {
    s.(msg := DeleteRecv(s).msg, deleteArray := None, deleteCur := 0, state := Idle)
  }

  lemma DeleLastRecv(env: Env, s: Snapshot, line: string)
    requires DeleQueue(s) && s.deleteCur + 1 == |s.deleteArray.value| && env.ok(Delete, line) == PsSuccess
    ensures RecvMsg(env, s, line).next == DeleLast(s)
  {
    DeleLastReply(env, s, line);
  }

  lemma DeleStepLast(env: Env, s: Snapshot, replies: seq<string>)
    requires DeleQueue(s) && s.deleteCur + 1 == |s.deleteArray.value|
    requires |replies| == 1 && env.ok(Delete, replies[0]) == PsSuccess
    ensures Run(env, s, Lines(replies)) == DeleLast(s)
  {
    DeleLastRecv(env, s, replies[0]);
    LineStep(env, s, replies, DeleLast(s));
    assert replies[1..] == [];
  }

  /** What the deletion loop leaves behind, from the DELE at delete_cur: DELE
      for the later entries in queue order, the records of the entries from
      delete_cur on marked deleted and no other record changed, the queue
      freed, cur_msg at the last entry and the window IDLE; the rows, the
      count, the verdict and the window flags are untouched. */
  ghost predicate DeleDone(s: Snapshot, t: Snapshot)
    requires DeleQueue(s)
  {
    var q := s.deleteArray.value;
    var k := s.deleteCur;
    && t.state == Idle && t.deleteArray == None && t.deleteCur == 0
    && t.outbox == s.outbox + DelesFrom(q, k + 1)
    && |t.msg| == |s.msg|
    && (forall j :: k <= j < |q| ==> t.msg[q[j]] == Erased)
    && (forall i :: 0 <= i < |s.msg| && i !in q[k..] ==> t.msg[i] == s.msg[i])
    && t.curMsg == q[|q| - 1]
    && t == s.(state := Idle, deleteArray := None, deleteCur := 0, curMsg := t.curMsg,
               outbox := t.outbox, msg := t.msg)
  }

  lemma DeleDoneLast(s: Snapshot, t: Snapshot)
    requires DeleQueue(s) && s.deleteCur + 1 == |s.deleteArray.value|
    requires t == DeleLast(s)
    ensures DeleDone(s, t)
  {
    var q := s.deleteArray.value;
    var k := s.deleteCur;
    assert DelesFrom(q, k + 1) == [];
    assert q[k..] == [q[k]];
  }

  lemma DeleDoneOutbox(s: Snapshot, t: Snapshot)
    requires DeleQueue(s) && s.deleteCur + 1 < |s.deleteArray.value|
    requires t.outbox == DeleNext(s).outbox + DelesFrom(s.deleteArray.value, s.deleteCur + 2)
    ensures t.outbox == s.outbox + DelesFrom(s.deleteArray.value, s.deleteCur + 1)
  {
    var q := s.deleteArray.value;
    var k := s.deleteCur;
    assert DelesFrom(q, k + 1) == [CmdDele(q[k + 1])] + DelesFrom(q, k + 2);
    AppendAssoc(s.outbox, [CmdDele(q[k + 1])], DelesFrom(q, k + 2));
  }

  lemma DeleDoneMsg(s: Snapshot, m: seq<MsgRecord>, t: seq<MsgRecord>)
    requires DeleQueue(s) && s.deleteCur + 1 < |s.deleteArray.value|
    requires |m| == |s.msg| && m[s.curMsg] == Erased
    requires forall i :: 0 <= i < |s.msg| && i != s.curMsg ==> m[i] == s.msg[i]
    requires var q := s.deleteArray.value; var k := s.deleteCur + 1;
      && |t| == |m|
      && (forall j :: k <= j < |q| ==> t[q[j]] == Erased)
      && (forall i :: 0 <= i < |m| && i !in q[k..] ==> t[i] == m[i])
    ensures var q := s.deleteArray.value; var k := s.deleteCur;
      && (forall j :: k <= j < |q| ==> t[q[j]] == Erased)
      && (forall i :: 0 <= i < |s.msg| && i !in q[k..] ==> t[i] == s.msg[i])
  {
    var q := s.deleteArray.value;
    var k := s.deleteCur;
    assert q[k..] == [q[k]] + q[k + 1..];
    forall i | 0 <= i < |s.msg| && i !in q[k..] ensures t[i] == s.msg[i] {
      assert i !in q[k + 1..] && i != q[k];
    }
    forall j | k <= j < |q| ensures t[q[j]] == Erased {
      if j == k && q[k] in q[k + 1..] {
        var j' :| k + 1 <= j' < |q| && q[j'] == q[k];
      }
    }
  }

  lemma DeleDoneCons(s: Snapshot, t: Snapshot)
    requires DeleQueue(s) && s.deleteCur + 1 < |s.deleteArray.value|
    requires DeleQueue(DeleNext(s)) && DeleDone(DeleNext(s), t)
    ensures DeleDone(s, t)
  {
    var s1 := DeleNext(s);
    DeleDoneFrame(s, s1, t);
    DeleDoneOutbox(s, t);
    DeleDoneMsg(s, s1.msg, t.msg);
  }

  /** One DELE step changes only what the loop's summary lets change. */
  lemma DeleDoneFrame(s: Snapshot, s1: Snapshot, t: Snapshot)
    requires s1 == s.(msg := s1.msg, deleteCur := s.deleteCur + 1, curMsg := s1.curMsg, outbox := s1.outbox)
    requires t == s1.(state := Idle, deleteArray := None, deleteCur := 0, curMsg := t.curMsg,
                      outbox := t.outbox, msg := t.msg)
    ensures t == s.(state := Idle, deleteArray := None, deleteCur := 0, curMsg := t.curMsg,
                    outbox := t.outbox, msg := t.msg)
  {
  }

  /** While the DELE at delete_cur is outstanding, one accepted reply per
      remaining entry sends DELE for the later entries one at a time, in queue
      order, marks exactly the records of the entries from delete_cur on as
      deleted, then frees the queue and goes back to IDLE. */
  lemma {:induction false} DeleteLoopRun(env: Env, s: Snapshot, replies: seq<string>)
    requires DeleQueue(s)
    requires forall line :: env.ok(Delete, line) == PsSuccess
    requires |replies| == |s.deleteArray.value| - s.deleteCur
    ensures DeleDone(s, Run(env, s, Lines(replies)))
    decreases |replies|
  {
    if |replies| == 1 {
      DeleStepLast(env, s, replies);
      DeleDoneLast(s, Run(env, s, Lines(replies)));
    } else {
      DeleNextQueue(s);
      DeleStepNext(env, s, replies);
      DeleteLoopRun(env, DeleNext(s), replies[1..]);
      DeleDoneCons(s, Run(env, DeleNext(s), Lines(replies[1..])));
    }
  }
}
