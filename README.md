# Remote-mailbox POP3 dispatcher (sylpheed `src/rpop3.c`), modelled in Dafny

The remote-mailbox window of the mail client lists the messages of a POP3 account and deletes the selected ones on the server, without downloading them. It reuses the POP3 session of `pop.c` but installs three session handlers of its own:

- `rpop3_session_recv_msg` handles a single-line reply;
- `rpop3_session_recv_data_finished` handles the end of a UIDL or LIST block;
- `rpop3_session_recv_data_as_file_finished` handles the end of a TOP block.

Two buttons drive the session from the window. Delete queues the selected rows and sends DELE for them one at a time. Close sends QUIT when the window is idle, and otherwise marks the window cancelled.

The project models these handlers and their helpers (`rpop3_top_send`, `rpop3_top_recv`, `rpop3_delete_send`, `rpop3_delete_recv`) together with the two buttons (`rpop3_delete`, `rpop3_close`). It proves the command order, the UIDL and LAST fallbacks, the cancellation checkpoints, the one-at-a-time DELE queue and the monotone deletion marker.

Files:

- `types.dfy` (`Pop3Types`): states, commands, message records, header rows, the `Snapshot` of every field the handlers touch, and events.
  - `TOP`, `TOP_RECV` and `IDLE` are ordinary states. In the source they are pseudo-states above `N_POP3_STATE`.
  - `Env` holds what lives in `pop.c` and other files not modelled here: the reply classifier `pop3_ok`, the TLS handshake, the STAT and LAST parsers, and the local-time renderer.
- `reply.dfy` (`Pop3Reply`): how the reply body is stripped. `StripStatus` is the pointer walk of the source, proved equal to the function `Body`.
- `spec.dfy` (`Rpop3Spec`): one function per handler and per button over a `Snapshot`, plus `Run`, which delivers a sequence of events.
- `window.dfy` (`Rpop3`): the two objects the source updates in place.
  - `Pop3Session` holds `state`, `count`, `cur_msg`, `error_val`, the `msg[]` array and the commands written.
  - `RPop3Window` holds the list rows, `cancelled`, `finished`, `delete_array` and `delete_cur`.
  - Every method is proved to leave the fields exactly as the matching `Rpop3Spec` function says.
- `replies.dfy` (`Rpop3Replies`): what one reply does in each state, stated against the spec functions.
- `inv.dfy` (`Rpop3Inv`): the session invariant, and the proof that every handler and button keeps it. The invariant says:
  - commands are written in protocol order, opening with the authentication sequence and STAT;
  - TOP goes to 1, 2, … without a gap and never past `count`;
  - the records are allocated for messages 0..count;
  - rows are numbered in order;
  - the DELE queue names existing rows and records.
- `props.dfy` (`Rpop3Props`): properties of whole runs — the opening sequence, cancellation, reachable sessions and deletion marks.
- `loops.dfy` (`Rpop3Loops`): the header loop and the deletion loop, run to their end.

The outbox (`Snapshot.outbox`, `Pop3Session.outbox`) records the commands `pop3_gen_send` writes, in order. Each `pop3_*_send` of `pop.c` is modelled as "enter the matching state and append one command".

`rpop3_close` guards its cancel branch with `state != DONE || state != ERROR`. That test holds in every state, so any state but IDLE marks the window cancelled, even DONE and ERROR. The model keeps the test as written (`Rpop3Spec.CloseButton`, `Rpop3.RPop3Window.Close`). It has no visible effect: once the session is in LOGOUT, DONE or ERROR, no event sends anything (`Rpop3Props.ClosingQuiet`).

## Model

| member | source | states |
|---|---|---|
| `Rpop3Spec.TopSend` | src/rpop3.c:383-388 | enters TOP and writes `TOP cur_msg 0`; nothing else changes |
| `Rpop3Spec.HeaderRow` | src/rpop3.c:402-422 | the row for message n has number n and no deletion mark. Subject and From are the parsed values or "(No Subject)" / "(No From)". Date is the local-time rendering of a nonzero `date_t`, else the raw Date string, else "(No Date)" |
| `Rpop3Spec.DeleteSend` | src/rpop3.c:431-442 | succeeds exactly when there is a queue and `delete_cur` is inside it. Then the state is DELETE, `cur_msg` is the queue entry at `delete_cur`, and `DELE cur_msg` is written with nothing else changed. Otherwise it returns -1 and changes nothing |
| `Rpop3Spec.DeleteRecv` | src/rpop3.c:444-449 | record `cur_msg` becomes deleted with `RECV_TIME_DELETE`; the record count and every other field are unchanged |
| `Rpop3Spec.DeleteRecvOthers` | src/rpop3.c:444-449 | no record other than `cur_msg`'s changes |
| `Rpop3Spec.Dispatch` | src/rpop3.c:476-582 | the state switch returns 0 or -1. In LOGOUT, DONE or ERROR it writes nothing and ends in DONE or ERROR. It never touches `cancelled` or `finished` |
| `Rpop3Spec.RecvMsg` | src/rpop3.c:451-582 | outside the two block states, a fatal verdict stores it in `error_val`, enters ERROR and returns -1 with nothing else changed. Replies after QUIT write nothing. `cancelled` and `finished` are untouched |
| `Rpop3Spec.RecvDataFinished` | src/rpop3.c:584-618 | returns 0 exactly when the block parser succeeded in UIDL_RECV or LIST_RECV; on -1 nothing changes. On 0 exactly one command is written, and it is QUIT when the window was cancelled |
| `Rpop3Spec.RecvDataAsFileFinished` | src/rpop3.c:620-655 | returns 0 exactly in TOP_RECV, and then appends the row for `cur_msg`. Cancelled: QUIT. `cur_msg >= count`: IDLE with nothing written. Any other state: -1 and no change |
| `Rpop3Spec.QueueMarks` | src/rpop3.c:703-713 | the selection loop marks exactly the selected rows and changes nothing else in any row |
| `Rpop3Spec.QueueEntries` | src/rpop3.c:703-713 | every queued number names a selected row that was not yet marked |
| `Rpop3Spec.QueueDistinct` | src/rpop3.c:703-713 | no message number is queued twice, even when the selection repeats a row |
| `Rpop3Spec.QueueComplete` | src/rpop3.c:703-713 | every selected row that was not yet marked is queued |
| `Rpop3Spec.QueueOrder` | src/rpop3.c:703-713 | the queue holds the numbers of the selected rows that were not yet marked, in selection order, each at its first selection |
| `Rpop3Spec.Queue` | src/rpop3.c:703-713 | the selection loop keeps the number of rows; what it marks and queues is stated by the `Queue*` lemmas above |
| `Rpop3Spec.DeleteButton` | src/rpop3.c:674-725 | outside IDLE, or unconfirmed, nothing changes. Otherwise the rows get the marks of the selection loop. If its queue is empty nothing else changes. Otherwise the queue is stored with `delete_cur` 0, `cur_msg` is its first entry, the state is DELETE and exactly `DELE cur_msg` is written. A command is written exactly when the queue is nonempty |
| `Rpop3Spec.CloseButton` | src/rpop3.c:727-736 | sets `finished`. In IDLE it sends QUIT; in every other state (DONE and ERROR included, as the guard is written) it sets `cancelled` |
| `Pop3Reply.Body` | src/rpop3.c:468-473 | the body is a suffix of the reply line and does not start with an ASCII blank |
| `Pop3Reply.StripStatus` | src/rpop3.c:468-473 | the pointer walk stops where `Body` starts, inside the line |
| `Pop3Reply.BodyShape` | src/rpop3.c:468-473 | the body is a suffix of the line. What is skipped is one optional `+`/`-`, then ASCII letters only, then ASCII blanks only, and neither run could have been longer |
| `Pop3Reply.StatReplyBody` | src/rpop3.c:468-473 | the body of `+OK 2 320`, the STAT reply of the example in section 5 of RFC 1939, is `2 320` |
| `Rpop3.RPop3Window.constructor` | src/rpop3.c:179-181 | the window starts with no rows, not cancelled, not finished and no queue |
| `Rpop3.RPop3Window.TopSend` | src/rpop3.c:383-388 | updates the session as `Rpop3Spec.TopSend` |
| `Rpop3.RPop3Window.TopRecv` | src/rpop3.c:390-429 | appends exactly the row `Rpop3Spec.HeaderRow` gives for `cur_msg`; nothing else changes |
| `Rpop3.RPop3Window.DeleteSend` | src/rpop3.c:431-442 | new state and return value as `Rpop3Spec.DeleteSend` |
| `Rpop3.RPop3Window.DeleteRecv` | src/rpop3.c:444-449 | writes the message array in place as `Rpop3Spec.DeleteRecv` |
| `Rpop3.RPop3Window.AuthSend` | src/rpop3.c:486-489 | APOP when the account asks for it, else USER |
| `Rpop3.RPop3Window.GreetingRecv` | src/rpop3.c:477-490 | STLS with STARTTLS, else the APOP-or-USER choice; returns 0 |
| `Rpop3.RPop3Window.AuthReply` | src/rpop3.c:492-508 | STLS (a failed handshake returns -1 and changes nothing), USER, PASS and APOP branches as `Rpop3Spec.Dispatch` |
| `Rpop3.RPop3Window.StatReply` | src/rpop3.c:509-518 | a parser failure returns -1 and changes nothing. Otherwise the count is stored, then UIDL if it is positive, else QUIT |
| `Rpop3.RPop3Window.LastReply` | src/rpop3.c:519-531 | an unsupported LAST resets `error_val` and keeps `cur_msg`. Otherwise `cur_msg` comes from the parser (failure: -1, no change). Then LIST if `cur_msg > 0`, else QUIT |
| `Rpop3.RPop3Window.UidlReply` | src/rpop3.c:532-540 | an unsupported UIDL resets `error_val` and sends LAST; otherwise UIDL_RECV |
| `Rpop3.RPop3Window.DeleteAcked` | src/rpop3.c:553-568 | marks the record. Then it advances `delete_cur` and sends the next DELE, or frees the queue, resets `delete_cur` to 0 and goes IDLE |
| `Rpop3.RPop3Window.Dispatch` | src/rpop3.c:476-577 | new state and return value as `Rpop3Spec.Dispatch` |
| `Rpop3.RPop3Window.RecvMsg` | src/rpop3.c:451-582 | new state and return value as `Rpop3Spec.RecvMsg` |
| `Rpop3.RPop3Window.RecvDataFinished` | src/rpop3.c:584-618 | new state and return value as `Rpop3Spec.RecvDataFinished` |
| `Rpop3.RPop3Window.HeaderReceived` | src/rpop3.c:630-646 | adds the row. Then QUIT if cancelled, else the next TOP with `cur_msg + 1` while `cur_msg < count`, else IDLE |
| `Rpop3.RPop3Window.RecvDataAsFileFinished` | src/rpop3.c:620-655 | new state and return value as `Rpop3Spec.RecvDataAsFileFinished` |
| `Rpop3.RPop3Window.Delete` | src/rpop3.c:674-725 | the selection loop (with invariant) leaves the window as `Rpop3Spec.DeleteButton` |
| `Rpop3.RPop3Window.Close` | src/rpop3.c:727-736 | leaves the window as `Rpop3Spec.CloseButton` |
| `Rpop3Replies.GreetingReply` | src/rpop3.c:477-490 | after the greeting: STLS if `ssl_pop` is STARTTLS, else APOP if `use_apop_auth`, else USER; returns 0 |
| `Rpop3Replies.StlsReply` | src/rpop3.c:492-499 | after STLS: returns 0 exactly when the handshake succeeds. Then the same APOP-or-USER choice; otherwise nothing changes |
| `Rpop3Replies.UserReply` | src/rpop3.c:501-503 | USER is followed by PASS |
| `Rpop3Replies.PassReply` | src/rpop3.c:504-508 | PASS and APOP are followed by STAT |
| `Rpop3Replies.StatReply` | src/rpop3.c:509-518 | returns 0 exactly when the count parses; a rejected count changes nothing. A positive count stores the count, allocates fresh records 0..count, sets `cur_msg` to 1 and sends UIDL. No messages: the count is stored and QUIT is sent. Nothing else changes |
| `Rpop3Replies.UidlReply` | src/rpop3.c:532-540 | an unsupported UIDL resets `error_val` and sends LAST; a supported one enters UIDL_RECV |
| `Rpop3Replies.LastReply` | src/rpop3.c:519-531 | returns 0 exactly when LAST is unsupported or parses. Then `cur_msg` is kept or parsed, and LIST if it is positive, else QUIT |
| `Rpop3Replies.BlockReply` | src/rpop3.c:541-548 | the LIST and TOP replies open their blocks (LIST_RECV, TOP_RECV) |
| `Rpop3Replies.DeleNextReply` | src/rpop3.c:553-561 | with entries left: the record is marked, `delete_cur` advances and DELE is sent for the next entry |
| `Rpop3Replies.DeleLastReply` | src/rpop3.c:553-568 | after the last entry: the record is marked, the queue is freed, `delete_cur` is 0 and the state is IDLE |
| `Rpop3Replies.LogoutReply` | src/rpop3.c:569-572 | after QUIT the session is DONE with nothing written, and nothing but the state and the recorded verdict changes. It returns 0 only for a plain success, because the classifier's verdict is the return value there |
| `Rpop3Replies.UnexpectedReply` | src/rpop3.c:451-582 | in ERROR, DONE, IDLE, TOP_RECV, UIDL_RECV or LIST_RECV a line reaches the default and returns -1. In the UIDL and LIST block states the verdict is not asked for and nothing changes. In the others a non-success verdict is recorded, a fatal one moves the session to ERROR, and nothing else changes |
| `Rpop3Replies.UidlBlockEnd` | src/rpop3.c:591-600 | the UIDL block ends with QUIT when cancelled, else LIST; a rejected block returns -1 and changes nothing |
| `Rpop3Replies.ListBlockEnd` | src/rpop3.c:601-611 | the LIST block sets `cur_msg` to 1. Then QUIT when cancelled or `count == 0`, else `TOP 1 0` |
| `Rpop3Replies.HeaderBlockEnd` | src/rpop3.c:630-646 | a TOP block adds the row for `cur_msg`. Then QUIT when cancelled, else the next TOP while `cur_msg < count`, else IDLE |
| `Rpop3Inv.InitInv` | src/rpop3.c:178-181 | the fresh session and window satisfy the session invariant |
| `Rpop3Inv.RecvMsgKeepsInv` | src/rpop3.c:451-582 | every single-line reply keeps the invariant, writes at most one command and clears no deletion mark |
| `Rpop3Inv.RecvDataFinishedKeepsInv` | src/rpop3.c:584-618 | the same for the end of a UIDL or LIST block |
| `Rpop3Inv.RecvDataAsFileFinishedKeepsInv` | src/rpop3.c:620-655 | the same for the end of a TOP block |
| `Rpop3Inv.DeleteButtonKeepsInv` | src/rpop3.c:674-725 | the same for the Delete button |
| `Rpop3Inv.CloseButtonKeepsInv` | src/rpop3.c:727-736 | the same for the Close button |
| `Rpop3Inv.StepKeepsInv` | src/rpop3.c:451-736 | the same for any deliverable event |
| `Rpop3Inv.RunKeepsInv` | src/rpop3.c:451-736 | the invariant holds after any sequence of events |
| `Rpop3Inv.RunKeepsMarks` | src/rpop3.c:444-449 | over any run the commands written stay written and no deletion mark, on a record or a row, is cleared |
| `Rpop3Props.OpeningRun` | src/rpop3.c:477-508 | against a server accepting everything, the greeting and one reply per command reach STAT. The commands written are exactly STLS (with STARTTLS), then APOP or USER and PASS, then STAT |
| `Rpop3Props.AuthRun` | src/rpop3.c:495-508 | from the APOP-or-USER choice, one accepted reply per command reaches STAT, writing the authentication commands and STAT |
| `Rpop3Props.ClosingQuiet` | src/rpop3.c:569-575 | once QUIT is sent or the session is over, no event writes anything and the session stays in LOGOUT, DONE or ERROR |
| `Rpop3Props.RecvMsgSendsNoTop` | src/rpop3.c:451-582 | a single-line reply writes at most one command and never TOP |
| `Rpop3Props.CancelledNoTop` | src/rpop3.c:591-646 | once the window is cancelled it stays cancelled, and no later event writes TOP |
| `Rpop3Props.ReachableSession` | src/rpop3.c:451-736 | after any events from the start: the commands open with the authentication sequence and STAT and follow protocol order. No step is skipped: LAST and LIST only after UIDL, TOP only after LIST, DELE only once TOP has been sent for every message. TOP goes to 1, 2, … without a gap and never past `count`. In the header loop `1 <= cur_msg <= count`. The queue names existing rows and records |
| `Rpop3Props.DeletedStaysMarked` | src/rpop3.c:444-449 | a record marked deleted stays marked over any run |
| `Rpop3Loops.HeaderRowsAt` | src/rpop3.c:413-422 | row i of the header loop is the row of message `n + i`, built from header i |
| `Rpop3Loops.HeaderLoopRun` | src/rpop3.c:630-646 | from `TOP n 0`, not cancelled, one accepted reply and one header per message: TOP is written for n+1..count in order. One row per message is added in order, and the window ends IDLE with `cur_msg == count` and nothing else changed |
| `Rpop3Loops.DeleteLoopRun` | src/rpop3.c:553-568 | from the DELE at `delete_cur`, one accepted reply per entry sends DELE for the later entries in queue order. It marks the records of the remaining entries as deleted and changes no other record. It then frees the queue and returns to IDLE with `cur_msg` at the last entry. Rows, count, verdict, `cancelled` and `finished` are untouched |

## Left out

- The GTK window: tree view, list store and columns, the status label, `alertpanel`, button sensitivity, `key_pressed`, `window_deleted` and the empty `rpop3_open`. The list store is a sequence of rows in insertion order (column sorting is not modelled). The selection and the confirmation dialog's answer are inputs of the Delete event.
- `rpop3_account` and `rpop3_start`: the event loop, connecting, the password prompt and `inc_lock`. Only the initial values they set are modelled (`Rpop3Spec.Init`, the constructors). A run is a sequence of events.
- The functions of `pop.c`, which is not part of this model. `pop3_ok`, the TLS handshake and the STAT and LAST parsers are fields of `Env`.
  - Only a non-success verdict is recorded in `error_val`. Whether `pop3_ok` resets it on success is decided in `pop.c` and is not modelled.
  - A parser result of `None` stands for the negative return that makes the handler return -1.
  - Each `pop3_*_send` is "set the state, write one command" and is taken to succeed.
  - The UIDL and LIST block parsers are a success flag on the block event.
  - The stand-ins for `pop.c` have no row in the table above: `Rpop3Spec.Init`, `Send`, `LogoutSend`, `AuthSend`, `StatRecv` and `FreshRecords`, and `Rpop3.Pop3Session`'s constructor, `Send` and `StatRecv`. They stand for `pop3_session_new`, the `pop3_*_send` functions and `pop3_getrange_stat_recv`. The APOP-or-USER choice they make is stated by `Rpop3Replies.GreetingReply` and `Rpop3Replies.StlsReply`.
- Byte-stream reading: `session_recv_data` and `session_recv_data_as_file` (dot-terminated reading and unstuffing) are in the session layer, which is not part of this model. Opening a block is taken to succeed.
- Header parsing and display: `procheader_parse_stream` is replaced by a parsed `Header`. `procheader_date_get_localtime` is the `Env.localtime` oracle. The size column (`to_human_readable`) and the `MsgInfo` column are not modelled.
- The RETR and RETR_RECV branches: this window never sends RETR, so those states are not in the model.
- Memory management: `g_array_free`, `procmsg_msginfo_free`, `memset`, `session_destroy`.
- `session_disconnect` after the reply to QUIT: the model only enters DONE.
- `USE_SSL` is taken to be defined, so the STLS branch is present.
- Parts of a message record other than `deleted` and `recv_time` (size, UID) are not modelled, since the dispatcher does not write them.
- `Rpop3Props.OpeningRun`, `Rpop3Loops.HeaderLoopRun`, `Rpop3Loops.DeleteLoopRun`: stated for a server that accepts every command on the path. Failing replies are covered one step at a time by `Rpop3Replies` and `Rpop3Inv`.
