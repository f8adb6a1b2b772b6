/**
 * The effect of each failure entry point of the SMTP client on the delivery
 * state, as a function of the state before the call, the arguments, and the
 * results the defer/bounce collaborators return. The imperative entry points
 * in module SmtpTrouble are proved to have exactly these effects.
 */
module Disposition {
  import opened Wrappers
  import opened Words
  import opened SmtpCodes
  import opened Ledger

  /** The exceptions the stream layer raises: end of file and time-out. */
  const SMTP_ERR_EOF: int := 1
  const SMTP_ERR_TIME: int := 2

  /** The SMTP session; only the server's name and address are consulted here. */
  datatype Session = Session(namaddr: string)

  /**
   * The parts of SMTP_STATE and DELIVER_REQUEST the failure handlers read
   * and write, together with the trace of collaborator calls made so far.
   */
  datatype Snapshot = Snapshot(rcpts: seq<Recipient>, status: bv32, errorMask: bv32,
                               finalServer: bool, hopStatus: Option<string>, log: seq<Event>)

  /** A soft error while more servers remain: log and skip, touch no recipient. */
  predicate Skips(s: Snapshot, code: int)
  {
    IsSoft(code) && !s.finalServer
  }

  /** A soft error defers, anything else bounces. */
  function ActionFor(code: int): Action
  {
    if IsSoft(code) then Defer else Bounce
  }

  /** The host name smtp_site_fail reports: "none" when there is no session. */
  function HostName(session: Option<Session>): string
  {
    if session.Some? then session.value.namaddr else "none"
  }

  /** The reason smtp_stream_except gives for an end of file or a time-out. */
  function StreamReason(namaddr: string, exception: int, description: string): string
    requires exception == SMTP_ERR_EOF || exception == SMTP_ERR_TIME
  {
    if exception == SMTP_ERR_EOF then "lost connection with " + namaddr + " while " + description
    else "conversation with " + namaddr + " timed out while " + description
  }

  /**
   * The state after the recipient loop has made pass `p` over every
   * recipient, ORing the results into the status.
   */
  function AfterPass(s: Snapshot, p: Sweep): Snapshot
    requires |p.replies| == |s.rcpts|
  {
    var t := SweepUpTo(s.rcpts, |s.rcpts|, p);
    s.(rcpts := t.rcpts, status := StatusUpTo(s.status, s.rcpts, |s.rcpts|, p.replies),
       log := s.log + t.events)
  }

  /** The pass smtp_site_fail and smtp_mesg_fail make when they do not skip. */
  function FailPass(session: Option<Session>, code: int, why: string, replies: seq<bv32>): Sweep
  {
    Sweep(ActionFor(code), true, HostName(session), why, replies)
  }

  /** smtp_site_fail with reply code `code` and reason `why`. */
  function SiteFail(s: Snapshot, session: Option<Session>, code: int, why: string,
                    replies: seq<bv32>): Snapshot
    requires |replies| == |s.rcpts|
  {
    var t :=
      if Skips(s, code) then s.(status := Or(s.status, ALL_ONES))
      else
        var f := AfterPass(s, FailPass(session, code, why, replies));
        f.(hopStatus := if IsSoft(code) && s.hopStatus.None? then Some(why) else s.hopStatus,
           finalServer := true);
    t.(errorMask := MaskAfterCheck(s.errorMask, code))
  }

  /**
   * smtp_mesg_fail. It reads the session's name for every pending recipient
   * it visits, so a missing session is admissible only when it skips or when
   * nothing is pending.
   */
  function MesgFail(s: Snapshot, session: Option<Session>, code: int, why: string,
                    replies: seq<bv32>): Snapshot
    requires |replies| == |s.rcpts|
    requires session.Some? || Skips(s, code) || NonePending(s.rcpts)
  {
    var t :=
      if Skips(s, code) then s.(status := Or(s.status, ALL_ONES))
      else AfterPass(s, FailPass(session, code, why, replies)).(finalServer := true);
    t.(errorMask := MaskAfterCheck(s.errorMask, code))
  }

  /** smtp_rcpt_fail for the recipient at index `k`; `reply` is what the collaborator returns. */
  function RcptFail(s: Snapshot, session: Option<Session>, code: int, k: nat, why: string,
                    reply: bv32): Snapshot
    requires k < |s.rcpts|
    requires session.Some? || Skips(s, code)
  {
    var t :=
      if Skips(s, code) then s.(status := Or(s.status, ALL_ONES))
      else
        var r := s.rcpts[k];
        var call := Append(ActionFor(code), k, r, HostName(session), why);
        if reply == 0 then
          s.(rcpts := s.rcpts[k := r.(offset := 0)], status := Or(s.status, reply),
             log := s.log + [call, Completed(k, r.offset)])
        else s.(status := Or(s.status, reply), log := s.log + [call]);
    t.(errorMask := MaskAfterCheck(s.errorMask, code))
  }

  /** The pass smtp_stream_except makes on the final server: defer, never finalise. */
  function StreamPass(session: Session, exception: int, description: string,
                      replies: seq<bv32>): Sweep
    requires exception == SMTP_ERR_EOF || exception == SMTP_ERR_TIME
  {
    Sweep(Defer, false, session.namaddr, StreamReason(session.namaddr, exception, description),
          replies)
  }

  /** smtp_stream_except; an unknown exception is a panic, so it is excluded. */
  function StreamExcept(s: Snapshot, session: Option<Session>, exception: int,
                        description: string, replies: seq<bv32>): Snapshot
    requires |replies| == |s.rcpts| && session.Some?
    requires exception == SMTP_ERR_EOF || exception == SMTP_ERR_TIME
  {
    if !s.finalServer then s.(status := Or(s.status, ALL_ONES))
    else AfterPass(s, StreamPass(session.value, exception, description, replies))
  }

  // ---------------------------------------------------------------------
  // What one pass over the recipient list does, stated without the loop.

  /** Recipient `i` is finalised exactly when it was pending and its call returned zero. */
  predicate PassRecipients(rs: seq<Recipient>, after: seq<Recipient>, p: Sweep)
    requires |p.replies| == |rs|
  {
    |after| == |rs|
    && forall i :: 0 <= i < |rs| ==>
         after[i] == if Finalises(rs, i, p) then rs[i].(offset := 0) else rs[i]
  }

  /**
   * The calls of one pass: one call of the pass's action per pending
   * recipient and none for a finalised one, in recipient order, each with the
   * recipient's own data; one deliver_completed with the old offset right
   * after each call that finalises.
   */
  ghost predicate PassCalls(rs: seq<Recipient>, evs: seq<Event>, p: Sweep)
    requires |p.replies| == |rs|
  {
    (forall a: Action, i: nat :: Count(evs, CallOf(a, i))
       == if a == p.action && i < |rs| && rs[i].offset != 0 then 1 else 0)
    && (forall i: nat :: Count(evs, CompletionOf(i))
          == if i < |rs| && Finalises(rs, i, p) then 1 else 0)
    && (forall e :: e in evs ==> Fits(e, rs, p))
    && InRecipientOrder(evs)
    && CompletionsFollowCalls(evs, rs, p)
  }

  /**
   * The status after a pass keeps every bit it had and every bit of every
   * result returned for a pending recipient, and no other bit: it is below
   * any word that covers them all. It is zero exactly when it was zero and
   * all those results were zero.
   */
  ghost predicate PassStatus(rs: seq<Recipient>, before: bv32, after: bv32, replies: seq<bv32>)
    requires |replies| == |rs|
  {
    Covers(after, before)
    && (forall i :: 0 <= i < |rs| && rs[i].offset != 0 ==> Covers(after, replies[i]))
    && (forall m :: Covers(m, before)
                    && (forall i :: 0 <= i < |rs| && rs[i].offset != 0 ==> Covers(m, replies[i]))
                    ==> Covers(m, after))
    && (after == 0 <==> before == 0 && forall i :: 0 <= i < |rs| && rs[i].offset != 0 ==> replies[i] == 0)
  }

  /** `t` is `s` after pass `p`: recipients, appended calls and status as above. */
  ghost predicate PassDone(s: Snapshot, t: Snapshot, p: Sweep)
    requires |p.replies| == |s.rcpts|
  {
    PassRecipients(s.rcpts, t.rcpts, p)
    && |s.log| <= |t.log| && t.log[..|s.log|] == s.log
    && PassCalls(s.rcpts, t.log[|s.log|..], p)
    && PassStatus(s.rcpts, s.status, t.status, p.replies)
  }

  /** The status a pass leaves behind is what PassStatus describes. */
  lemma StatusUpToPass(status: bv32, rs: seq<Recipient>, replies: seq<bv32>)
    requires |replies| == |rs|
    ensures PassStatus(rs, status, StatusUpTo(status, rs, |rs|, replies), replies)
  {
    StatusUpToKeeps(status, rs, |rs|, replies);
    StatusUpToCoversAll(status, rs, |rs|, replies);
    forall m | Covers(m, status)
                 && (forall i :: 0 <= i < |rs| && rs[i].offset != 0 ==> Covers(m, replies[i]))
      ensures Covers(m, StatusUpTo(status, rs, |rs|, replies))
    {
      StatusUpToLeast(status, rs, |rs|, replies, m);
    }
    StatusUpToZero(status, rs, |rs|, replies);
  }

  lemma AfterPassStatus(s: Snapshot, p: Sweep)
    requires |p.replies| == |s.rcpts|
    ensures PassStatus(s.rcpts, s.status, AfterPass(s, p).status, p.replies)
  {
    StatusUpToPass(s.status, s.rcpts, p.replies);
  }

  /** The recipient loop does what PassDone says. */
  lemma AfterPassDone(s: Snapshot, p: Sweep)
    requires |p.replies| == |s.rcpts|
    ensures PassDone(s, AfterPass(s, p), p)
  {
    var rs := s.rcpts;
    var t := SweepUpTo(rs, |rs|, p);
    var f := AfterPass(s, p);
    SweepRecipients(rs, |rs|, p);
    assert f.log[|s.log|..] == t.events;
    assert f.log[..|s.log|] == s.log;
    SweepCallCounts(rs, |rs|, p);
    SweepCompletionCounts(rs, |rs|, p);
    SweepEvents(rs, |rs|, p);
    SweepOrder(rs, |rs|, p);
    SweepCompletions(rs, |rs|, p);
    AfterPassStatus(s, p);
  }

  // ---------------------------------------------------------------------
  // smtp_site_fail

  /** Soft error, more servers: status all ones, nothing else but the error mask changes. */
  lemma SiteFailSkips(s: Snapshot, session: Option<Session>, code: int, why: string,
                      replies: seq<bv32>)
    requires |replies| == |s.rcpts| && Skips(s, code)
    ensures var t := SiteFail(s, session, code, why, replies);
            t.status == ALL_ONES && t.rcpts == s.rcpts && t.log == s.log
            && !t.finalServer && t.hopStatus == s.hopStatus
  {
  }

  /**
   * Otherwise: every pending recipient is deferred (soft) or bounced (hard)
   * once, with the session's name or "none", and the final server flag is up.
   */
  lemma SiteFailFinalises(s: Snapshot, session: Option<Session>, code: int, why: string,
                          replies: seq<bv32>)
    requires |replies| == |s.rcpts| && !Skips(s, code)
    ensures var t := SiteFail(s, session, code, why, replies);
            t.finalServer && PassDone(s, t, FailPass(session, code, why, replies))
  {
    AfterPassDone(s, FailPass(session, code, why, replies));
  }

  /**
   * The cached hop status changes only on a soft error at the final server
   * when none was cached, and then becomes the reason.
   */
  lemma SiteFailHopStatus(s: Snapshot, session: Option<Session>, code: int, why: string,
                          replies: seq<bv32>)
    requires |replies| == |s.rcpts|
    ensures var t := SiteFail(s, session, code, why, replies);
            (t.hopStatus != s.hopStatus <==> IsSoft(code) && s.finalServer && s.hopStatus.None?)
            && (t.hopStatus != s.hopStatus ==> t.hopStatus == Some(why))
  {
  }

  // ---------------------------------------------------------------------
  // smtp_mesg_fail

  lemma MesgFailSkips(s: Snapshot, session: Option<Session>, code: int, why: string,
                      replies: seq<bv32>)
    requires |replies| == |s.rcpts| && Skips(s, code)
    ensures var t := MesgFail(s, session, code, why, replies);
            t.status == ALL_ONES && t.rcpts == s.rcpts && t.log == s.log && !t.finalServer
  {
  }

  lemma MesgFailFinalises(s: Snapshot, session: Option<Session>, code: int, why: string,
                          replies: seq<bv32>)
    requires |replies| == |s.rcpts| && !Skips(s, code)
    requires session.Some? || NonePending(s.rcpts)
    ensures var t := MesgFail(s, session, code, why, replies);
            t.finalServer && PassDone(s, t, FailPass(session, code, why, replies))
  {
    AfterPassDone(s, FailPass(session, code, why, replies));
  }

  /** smtp_mesg_fail never touches the cached hop status. */
  lemma MesgFailHopStatus(s: Snapshot, session: Option<Session>, code: int, why: string,
                          replies: seq<bv32>)
    requires |replies| == |s.rcpts| && (session.Some? || Skips(s, code) || NonePending(s.rcpts))
    ensures MesgFail(s, session, code, why, replies).hopStatus == s.hopStatus
  {
  }

  // ---------------------------------------------------------------------
  // smtp_rcpt_fail

  lemma RcptFailSkips(s: Snapshot, session: Option<Session>, code: int, k: nat, why: string,
                      reply: bv32)
    requires k < |s.rcpts| && Skips(s, code)
    ensures var t := RcptFail(s, session, code, k, why, reply);
            t.status == ALL_ONES && t.rcpts == s.rcpts && t.log == s.log
  {
  }

  /**
   * Otherwise: exactly one call, of the action the code calls for, about
   * recipient `k` and no other; the recipient is finalised (offset cleared,
   * deliver_completed with its old offset) exactly when the call returned
   * zero; no other recipient changes; the result is ORed into the status.
   */
  lemma RcptFailCalls(s: Snapshot, session: Option<Session>, code: int, k: nat, why: string,
                      reply: bv32)
    requires k < |s.rcpts| && session.Some? && !Skips(s, code)
    ensures var t := RcptFail(s, session, code, k, why, reply);
            |t.rcpts| == |s.rcpts|
            && (forall i :: 0 <= i < |s.rcpts| && i != k ==> t.rcpts[i] == s.rcpts[i])
            && t.rcpts[k] == (if reply == 0 then s.rcpts[k].(offset := 0) else s.rcpts[k])
            && (forall a: Action, i: nat :: Count(t.log, CallOf(a, i))
                  == Count(s.log, CallOf(a, i)) + if a == ActionFor(code) && i == k then 1 else 0)
            && (forall i: nat :: Count(t.log, CompletionOf(i))
                  == Count(s.log, CompletionOf(i)) + if i == k && reply == 0 then 1 else 0)
            && |t.log| == |s.log| + (if reply == 0 then 2 else 1) && t.log[..|s.log|] == s.log
            && t.log[|s.log|] == Append(ActionFor(code), k, s.rcpts[k], session.value.namaddr, why)
            && (reply == 0 ==> t.log[|t.log| - 1] == Completed(k, s.rcpts[k].offset))
  {
    var t := RcptFail(s, session, code, k, why, reply);
    var call := Append(ActionFor(code), k, s.rcpts[k], session.value.namaddr, why);
    var tail := if reply == 0 then [call, Completed(k, s.rcpts[k].offset)] else [call];
    assert t.log == s.log + tail;
    forall q: Query ensures Count(t.log, q) == Count(s.log, q) + Count(tail, q) {
      CountConcat(s.log, tail, q);
    }
    forall q: Query
      ensures Count(tail, q) == (if Matches(call, q) then 1 else 0)
                                + (if reply == 0 && Matches(Completed(k, s.rcpts[k].offset), q) then 1 else 0)
    {
      CountOne(call, q);
      if reply == 0 {
        CountConcat([call], [Completed(k, s.rcpts[k].offset)], q);
        CountOne(Completed(k, s.rcpts[k].offset), q);
      }
    }
  }

  /** The result of the call made for the recipient is ORed into the status. */
  lemma RcptFailStatus(s: Snapshot, session: Option<Session>, code: int, k: nat, why: string,
                       reply: bv32)
    requires k < |s.rcpts| && (session.Some? || Skips(s, code))
    ensures var t := RcptFail(s, session, code, k, why, reply);
            Covers(t.status, s.status)
            && (!Skips(s, code) ==> Covers(t.status, reply)
                                    && (t.status == 0 <==> s.status == 0 && reply == 0))
  {
  }

  /** smtp_rcpt_fail never changes the final server flag nor the hop status. */
  lemma RcptFailKeepsFlags(s: Snapshot, session: Option<Session>, code: int, k: nat,
                           why: string, reply: bv32)
    requires k < |s.rcpts| && (session.Some? || Skips(s, code))
    ensures var t := RcptFail(s, session, code, k, why, reply);
            t.finalServer == s.finalServer && t.hopStatus == s.hopStatus
  {
  }

  // ---------------------------------------------------------------------
  // smtp_stream_except

  lemma StreamExceptSkips(s: Snapshot, session: Option<Session>, exception: int,
                          description: string, replies: seq<bv32>)
    requires |replies| == |s.rcpts| && session.Some? && !s.finalServer
    requires exception == SMTP_ERR_EOF || exception == SMTP_ERR_TIME
    ensures var t := StreamExcept(s, session, exception, description, replies);
            t.status == ALL_ONES && t.rcpts == s.rcpts && t.log == s.log
  {
  }

  /**
   * On the final server every pending recipient gets exactly one defer call
   * with the fixed end-of-file or time-out reason, and no bounce call;
   * nothing is finalised: offsets stay, deliver_completed is never called.
   */
  lemma StreamExceptDefers(s: Snapshot, session: Option<Session>, exception: int,
                           description: string, replies: seq<bv32>)
    requires |replies| == |s.rcpts| && session.Some? && s.finalServer
    requires exception == SMTP_ERR_EOF || exception == SMTP_ERR_TIME
    ensures var t := StreamExcept(s, session, exception, description, replies);
            var p := StreamPass(session.value, exception, description, replies);
            PassDone(s, t, p) && t.rcpts == s.rcpts
            && (forall i: nat :: Count(t.log[|s.log|..], CallOf(Bounce, i)) == 0)
            && (forall i: nat :: Count(t.log[|s.log|..], CompletionOf(i)) == 0)
  {
    var p := StreamPass(session.value, exception, description, replies);
    AfterPassDone(s, p);
    var t := StreamExcept(s, session, exception, description, replies);
    assert t.rcpts == s.rcpts;
  }

  /** smtp_stream_except never changes the error mask, the final server flag or the hop status. */
  lemma StreamExceptKeepsFlags(s: Snapshot, session: Option<Session>, exception: int,
                               description: string, replies: seq<bv32>)
    requires |replies| == |s.rcpts| && session.Some?
    requires exception == SMTP_ERR_EOF || exception == SMTP_ERR_TIME
    ensures var t := StreamExcept(s, session, exception, description, replies);
            t.errorMask == s.errorMask && t.finalServer == s.finalServer
            && t.hopStatus == s.hopStatus
  {
  }

  // ---------------------------------------------------------------------
  // The recipient ledger across entry points

  /**
   * smtp_rcpt_fail keeps the ledger provided that, when it finalises, the
   * recipient was still pending: the function does not look at the offset
   * itself, so it is its caller's duty not to pass a finalised recipient.
   */
  lemma RcptFailKeepsLedger(init: seq<Recipient>, s: Snapshot, session: Option<Session>,
                            code: int, k: nat, why: string, reply: bv32)
    requires k < |s.rcpts| && (session.Some? || Skips(s, code))
    requires LedgerOk(init, s.rcpts, s.log)
    requires !Skips(s, code) && reply == 0 ==> s.rcpts[k].offset != 0
    ensures var t := RcptFail(s, session, code, k, why, reply);
            LedgerOk(init, t.rcpts, t.log)
  {
    if !Skips(s, code) {
      RcptFailCalls(s, session, code, k, why, reply);
    }
  }

  /** One failure report, with the arguments and collaborator results of the call. */
  datatype Failure =
    | SiteFailure(session: Option<Session>, code: int, why: string, replies: seq<bv32>)
    | MesgFailure(session: Option<Session>, code: int, why: string, replies: seq<bv32>)
    | RcptFailure(session: Option<Session>, code: int, index: nat, why: string, reply: bv32)
    | StreamFailure(session: Option<Session>, exception: int, description: string,
                    replies: seq<bv32>)

  /** What each entry point demands of its caller (no null session it would read, no unknown exception). */
  predicate Admissible(s: Snapshot, f: Failure)
  {
    match f
    case SiteFailure(_, _, _, replies) => |replies| == |s.rcpts|
    case MesgFailure(session, code, _, replies) =>
      |replies| == |s.rcpts| && (session.Some? || Skips(s, code) || NonePending(s.rcpts))
    case RcptFailure(session, code, k, _, _) => k < |s.rcpts| && (session.Some? || Skips(s, code))
    case StreamFailure(session, exception, _, replies) =>
      |replies| == |s.rcpts| && session.Some?
      && (exception == SMTP_ERR_EOF || exception == SMTP_ERR_TIME)
  }

  /**
   * The caller's duty towards smtp_rcpt_fail: a recipient it finalises is
   * still pending. This is the weakest duty under which the ledger is kept,
   * so it mentions the collaborator's result: a failing call finalises
   * nothing. A caller cannot foresee that result, so in practice it meets
   * the duty by passing only pending recipients, which implies this one.
   */
  predicate OnPending(s: Snapshot, f: Failure)
    requires Admissible(s, f)
  {
    f.RcptFailure? && !Skips(s, f.code) && f.reply == 0 ==> s.rcpts[f.index].offset != 0
  }

  function Apply(s: Snapshot, f: Failure): Snapshot
    requires Admissible(s, f)
  {
    match f
    case SiteFailure(session, code, why, replies) => SiteFail(s, session, code, why, replies)
    case MesgFailure(session, code, why, replies) => MesgFail(s, session, code, why, replies)
    case RcptFailure(session, code, k, why, reply) => RcptFail(s, session, code, k, why, reply)
    case StreamFailure(session, exception, description, replies) =>
      StreamExcept(s, session, exception, description, replies)
  }

  lemma ApplyKeepsLedger(init: seq<Recipient>, s: Snapshot, f: Failure)
    requires Admissible(s, f) && OnPending(s, f) && LedgerOk(init, s.rcpts, s.log)
    ensures var t := Apply(s, f);
            LedgerOk(init, t.rcpts, t.log)
  {
    match f
    case SiteFailure(session, code, why, replies) =>
      if !Skips(s, code) {
        SweepKeepsLedger(init, s.rcpts, s.log, FailPass(session, code, why, replies));
      }
    case MesgFailure(session, code, why, replies) =>
      if !Skips(s, code) {
        SweepKeepsLedger(init, s.rcpts, s.log, FailPass(session, code, why, replies));
      }
    case RcptFailure(session, code, k, why, reply) =>
      RcptFailKeepsLedger(init, s, session, code, k, why, reply);
    case StreamFailure(session, exception, description, replies) =>
      if s.finalServer {
        SweepKeepsLedger(init, s.rcpts, s.log,
                         StreamPass(session.value, exception, description, replies));
      }
  }

  /**
   * Nothing lowers the final server flag, and only smtp_site_fail or
   * smtp_mesg_fail with a code that is not soft raises it.
   */
  lemma ApplyFinalServer(s: Snapshot, f: Failure)
    requires Admissible(s, f)
    ensures var t := Apply(s, f);
            (s.finalServer ==> t.finalServer)
            && (t.finalServer != s.finalServer
                ==> (f.SiteFailure? || f.MesgFailure?) && !IsSoft(f.code))
  {
  }

  /**
   * Every entry point but smtp_stream_except runs smtp_check_code on its
   * reply code (whose effect on the mask MaskAfterCheck states);
   * smtp_stream_except leaves the error mask alone.
   */
  lemma ApplyErrorMask(s: Snapshot, f: Failure)
    requires Admissible(s, f)
    ensures Apply(s, f).errorMask
            == if f.StreamFailure? then s.errorMask else MaskAfterCheck(s.errorMask, f.code)
  {
  }

  /**
   * A finalised recipient stays finalised and keeps its addresses; a pending
   * one at most has its offset cleared.
   */
  lemma ApplyKeepsFinalised(s: Snapshot, f: Failure)
    requires Admissible(s, f)
    ensures var t := Apply(s, f);
            |t.rcpts| == |s.rcpts|
            && forall i :: 0 <= i < |s.rcpts| ==>
                 (t.rcpts[i] == s.rcpts[i] || t.rcpts[i] == s.rcpts[i].(offset := 0))
                 && (s.rcpts[i].offset == 0 ==> t.rcpts[i] == s.rcpts[i])
  {
    match f
    case SiteFailure(session, code, why, replies) =>
      if !Skips(s, code) {
        SweepRecipients(s.rcpts, |s.rcpts|, FailPass(session, code, why, replies));
      }
    case MesgFailure(session, code, why, replies) =>
      if !Skips(s, code) {
        SweepRecipients(s.rcpts, |s.rcpts|, FailPass(session, code, why, replies));
      }
    case RcptFailure(session, code, k, why, reply) =>
    case StreamFailure(session, exception, description, replies) =>
      if s.finalServer {
        SweepRecipients(s.rcpts, |s.rcpts|,
                        StreamPass(session.value, exception, description, replies));
      }
  }

  /** A sequence of failure reports; None once a report is not admissible. */
  function Run(s: Snapshot, fs: seq<Failure>): Option<Snapshot>
    decreases |fs|
  {
    if fs == [] then Some(s)
    else if Admissible(s, fs[0]) && OnPending(s, fs[0]) then Run(Apply(s, fs[0]), fs[1..])
    else None
  }

  /** No recipient is finalised twice over any sequence of failure reports. */
  lemma {:induction false} RunKeepsLedger(init: seq<Recipient>, s: Snapshot, fs: seq<Failure>)
    requires LedgerOk(init, s.rcpts, s.log) && Run(s, fs).Some?
    ensures LedgerOk(init, Run(s, fs).value.rcpts, Run(s, fs).value.log)
    decreases |fs|
  {
    if fs != [] {
      ApplyKeepsLedger(init, s, fs[0]);
      RunKeepsLedger(init, Apply(s, fs[0]), fs[1..]);
    }
  }

  /** Once raised, the final server flag stays up for the rest of the delivery. */
  lemma {:induction false} RunFinalServer(s: Snapshot, fs: seq<Failure>)
    requires Run(s, fs).Some? && s.finalServer
    ensures Run(s, fs).value.finalServer
    decreases |fs|
  {
    if fs != [] {
      ApplyFinalServer(s, fs[0]);
      RunFinalServer(Apply(s, fs[0]), fs[1..]);
    }
  }

  /** Once finalised, a recipient stays finalised. */
  lemma {:induction false} RunKeepsFinalised(s: Snapshot, fs: seq<Failure>, i: nat)
    requires Run(s, fs).Some? && i < |s.rcpts| && s.rcpts[i].offset == 0
    ensures i < |Run(s, fs).value.rcpts| && Run(s, fs).value.rcpts[i] == s.rcpts[i]
    decreases |fs|
  {
    if fs != [] {
      ApplyKeepsFinalised(s, fs[0]);
      RunKeepsFinalised(Apply(s, fs[0]), fs[1..], i);
    }
  }
}
