/**
 * The failure handlers of the SMTP client as they run: in-place updates of
 * the delivery request's recipient array and of the client state's status,
 * error mask and final server flag. Each entry point is proved to have
 * exactly the effect module Disposition gives it, so every property proved
 * there holds of these methods.
 */
module SmtpTrouble {
  import opened Wrappers
  import opened Words
  import opened SmtpCodes
  import opened Ledger
  import opened Disposition

  /** DELIVER_REQUEST: the recipient list, finalised in place, and the cached hop status. */
  class DeliverRequest {
    const rcpts: array<Recipient>
    var hopStatus: Option<string>

    constructor (rs: seq<Recipient>)
      ensures fresh(rcpts) && rcpts[..] == rs && hopStatus.None?
    {
      rcpts := new Recipient[|rs|](i requires 0 <= i < |rs| => rs[i]);
      hopStatus := None;
    }
  }

  /**
   * SMTP_STATE: the delivery in progress. `log` records every call into
   * defer_append, bounce_append and deliver_completed; `initial` is the
   * recipient list as the request arrived.
   */
  class SmtpState {
    const request: DeliverRequest
    var session: Option<Session>
    var status: bv32
    var errorMask: bv32
    var finalServer: bool
    ghost var log: seq<Event>
    ghost var initial: seq<Recipient>

    ghost function View(): Snapshot
      reads this, request, request.rcpts
    {
      Snapshot(request.rcpts[..], status, errorMask, finalServer, request.hopStatus, log)
    }

    /** No recipient has been finalised twice, nor any but through a recorded deliver_completed. */
    ghost predicate Ok()
      reads this, request, request.rcpts
    {
      LedgerOk(initial, request.rcpts[..], log)
    }

    constructor (request: DeliverRequest, session: Option<Session>)
      ensures this.request == request && this.session == session
      ensures status == 0 && errorMask == 0 && !finalServer && log == []
      ensures initial == request.rcpts[..] && Ok()
    {
      this.request := request;
      this.session := session;
      status := 0;
      errorMask := 0;
      finalServer := false;
      log := [];
      initial := request.rcpts[..];
    }

    /** smtp_check_code: flag a protocol error for the postmaster. */
    method CheckCode(code: int)
      modifies this`errorMask
      ensures errorMask == MaskAfterCheck(old(errorMask), code)
    {
      if IsProtocolError(code) {
        errorMask := Or(errorMask, MAIL_ERROR_PROTOCOL);
      }
    }

    /**
     * The recipient loop shared by smtp_site_fail, smtp_mesg_fail and
     * smtp_stream_except: skip finalised recipients, call the collaborator
     * for every other one, OR its result into the status, and, when the pass
     * finalises, clear the offset of each recipient whose call succeeded.
     */
    method SweepPending(p: Sweep)
      requires |p.replies| == request.rcpts.Length
      modifies this`status, this`log, request.rcpts
      ensures request.rcpts[..] == SweepUpTo(old(request.rcpts[..]), |p.replies|, p).rcpts
      ensures status == StatusUpTo(old(status), old(request.rcpts[..]), |p.replies|, p.replies)
      ensures log == old(log) + SweepUpTo(old(request.rcpts[..]), |p.replies|, p).events
    {
      ghost var rs := request.rcpts[..];
      var n := request.rcpts.Length;
      var acc := status;
      var i := 0;
      while i < n
        invariant 0 <= i <= n
        invariant request.rcpts[..] == SweepUpTo(rs, i, p).rcpts
        invariant acc == StatusUpTo(old(status), rs, i, p.replies)
        invariant log == old(log) + SweepUpTo(rs, i, p).events
      {
        SweepRecipients(rs, i, p);
        var rcpt := request.rcpts[i];
        assert rcpt == rs[i];
        if rcpt.offset != 0 {
          var result := p.replies[i];
          assert StatusUpTo(old(status), rs, i + 1, p.replies) == Or(acc, result);
          log := log + [Append(p.action, i, rcpt, p.host, p.reason)];
          if p.completes && result == 0 {
            log := log + [Completed(i, rcpt.offset)];
            request.rcpts[i] := rcpt.(offset := 0);
          }
          acc := Or(acc, result);
        } else {
          assert StatusUpTo(old(status), rs, i + 1, p.replies) == acc;
        }
        i := i + 1;
      }
      status := acc;
    }

    /** smtp_site_fail: the server could not be reached or refused the session. */
    method SiteFail(code: int, why: string, replies: seq<bv32>) returns (r: int)
      requires |replies| == request.rcpts.Length
      modifies this`status, this`errorMask, this`finalServer, this`log, request`hopStatus,
               request.rcpts
      ensures r == -1
      ensures View() == Disposition.SiteFail(old(View()), session, code, why, replies)
      ensures old(Ok()) ==> Ok()
    {
      if IsSoft(code) && !finalServer {
        status := Or(status, ALL_ONES);
      } else {
        SweepPending(FailPass(session, code, why, replies));
        if IsSoft(code) && request.hopStatus.None? {
          request.hopStatus := Some(why);
        }
        finalServer := true;
      }
      CheckCode(code);
      r := -1;
      KeepsOk(old(View()), SiteFailure(session, code, why, replies));
    }

    /** smtp_mesg_fail: the server refused the sender or the message. */
    method MesgFail(code: int, why: string, replies: seq<bv32>) returns (r: int)
      requires |replies| == request.rcpts.Length
      requires session.Some? || (IsSoft(code) && !finalServer) || NonePending(request.rcpts[..])
      modifies this`status, this`errorMask, this`finalServer, this`log, request.rcpts
      ensures r == -1
      ensures View() == Disposition.MesgFail(old(View()), session, code, why, replies)
      ensures old(Ok()) ==> Ok()
    {
      if IsSoft(code) && !finalServer {
        status := Or(status, ALL_ONES);
      } else {
        SweepPending(FailPass(session, code, why, replies));
        finalServer := true;
      }
      CheckCode(code);
      r := -1;
      KeepsOk(old(View()), MesgFailure(session, code, why, replies));
    }

    /**
     * smtp_rcpt_fail: the server refused the recipient at index `k`; `reply`
     * is what the defer or bounce call returns.
     */
    method RcptFail(code: int, k: nat, why: string, reply: bv32)
      requires k < request.rcpts.Length
      requires session.Some? || (IsSoft(code) && !finalServer)
      modifies this`status, this`errorMask, this`log, request.rcpts
      ensures View() == Disposition.RcptFail(old(View()), session, code, k, why, reply)
      ensures old(Ok()) && ((IsSoft(code) && !finalServer) || reply != 0 || old(request.rcpts[k]).offset != 0)
              ==> Ok()
    {
      ghost var was := View();
      var result: bv32;
      if IsSoft(code) && !finalServer {
        result := ALL_ONES;
      } else {
        var rcpt := request.rcpts[k];
        result := reply;
        log := log + [Append(ActionFor(code), k, rcpt, session.value.namaddr, why)];
        if result == 0 {
          log := log + [Completed(k, rcpt.offset)];
          request.rcpts[k] := rcpt.(offset := 0);
        }
      }
      CheckCode(code);
      status := Or(status, result);
      ghost var want := Disposition.RcptFail(was, session, code, k, why, reply);
      assert request.rcpts[..] == want.rcpts;
      assert log == want.log;
      assert status == want.status;
      assert errorMask == want.errorMask;
      KeepsOk(was, RcptFailure(session, code, k, why, reply));
    }

    /** smtp_stream_except: the connection was lost or timed out. */
    method StreamExcept(exception: int, description: string, replies: seq<bv32>) returns (r: int)
      requires |replies| == request.rcpts.Length && session.Some?
      requires exception == SMTP_ERR_EOF || exception == SMTP_ERR_TIME
      modifies this`status, this`log, request.rcpts
      ensures r == -1
      ensures View() == Disposition.StreamExcept(old(View()), session, exception, description, replies)
      ensures old(Ok()) ==> Ok()
    {
      var why := StreamReason(session.value.namaddr, exception, description);
      if !finalServer {
        status := Or(status, ALL_ONES);
      } else {
        SweepPending(Sweep(Defer, false, session.value.namaddr, why, replies));
      }
      r := -1;
      KeepsOk(old(View()), StreamFailure(session, exception, description, replies));
    }

    /** The ledger carries over from the old view to the new one. */
    lemma KeepsOk(was: Snapshot, f: Failure)
      requires Admissible(was, f) && Apply(was, f) == View()
      ensures LedgerOk(initial, was.rcpts, was.log) && OnPending(was, f) ==> Ok()
    {
      if LedgerOk(initial, was.rcpts, was.log) && OnPending(was, f) {
        ApplyKeepsLedger(initial, was, f);
      }
    }
  }
}
