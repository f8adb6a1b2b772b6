# Postfix SMTP client error-handler policy, modelled in Dafny

This project models `smtp_trouble.c` from the Postfix SMTP client. That file
holds the error handlers that decide what a failed delivery attempt does to
each recipient of a queued message:

- `smtp_site_fail`: the server could not be reached or refused the session.
- `smtp_mesg_fail`: the server refused the sender or the message.
- `smtp_rcpt_fail`: the server refused one recipient.
- `smtp_stream_except`: the connection was lost or timed out.

A recipient is *pending* while its queue-file offset is non-zero, and
*finalised* once it is zero. Each handler behaves as follows:

- **Skipping.** A soft (4xx) error while more mail servers remain only
  logs, ORs -1 into the status and touches no recipient. For
  `smtp_stream_except` every exception counts as soft.
- **`smtp_site_fail` and `smtp_mesg_fail`, otherwise.** Every pending
  recipient is deferred (4xx) or bounced (any other code). A recipient whose
  call returns 0 is finalised: the handler calls `deliver_completed` with
  its old offset and clears the offset. Both handlers then raise the
  *final server* flag, so that the remaining servers are skipped.
- **`smtp_rcpt_fail`, otherwise.** Only the one recipient is deferred or
  bounced, and finalised in the same way when the call returns 0. The final
  server flag is left alone.
- **`smtp_stream_except` at the final server.** Every pending recipient is
  deferred, but none is finalised: no offset is cleared, and
  `deliver_completed` is never called. The flag is left alone.
- **Hop status.** Only `smtp_site_fail` writes it, and only with a soft code
  at the final server when no hop status is cached yet. It then caches the
  reason.
- **Error mask.** Every handler but `smtp_stream_except` runs
  `smtp_check_code`, which flags protocol errors in the error mask.

The project has six files:

- `words.dfy` models the C `int` status and error mask as `bv32`. `|= -1` sets
  every bit.
- `smtp_codes.dfy` models `SMTP_SOFT` and `SMTP_HARD` on C's truncating
  division, and the test inside `smtp_check_code`.
- `ledger.dfy` has the recipients, and the trace of calls into
  `defer_append`, `bounce_append` and `deliver_completed`. It also has the
  recipient loop as a function over the original list, and the ledger
  invariant: no recipient is finalised twice, and none is finalised without
  a recorded `deliver_completed`.
- `disposition.dfy` gives the effect each handler has on the state as a
  function of the old state. The properties are proved about these effects,
  and carried over sequences of failure reports.
- `smtp_trouble.dfy` has the classes `DeliverRequest` and `SmtpState`, whose
  methods update the recipient array and the state fields in place. Each
  method is proved to have exactly the effect its function in
  `disposition.dfy` gives it, and to keep the ledger invariant.
- `wrappers.dfy` has `Option`.

The values the collaborators return are inputs of the model. `replies`
gives the result of the defer or bounce call for each recipient index
(a pass calls it at most once per recipient). `reply` gives the single
result in `smtp_rcpt_fail`. The calls are recorded in a ghost trace.

Some points where the code is easy to misread:

- **555 and 501.** `SMTP_HARD(555)` and `SMTP_HARD(501)` hold, because
  555/100 is 5. So these codes are hard errors, and are also protocol errors.
- **`smtp_stream_except`.** It defers every pending recipient at the final
  server, but it never clears an offset and never calls `deliver_completed`.
  The recipients stay pending.
- **`smtp_rcpt_fail`.** It does not look at the recipient's offset. An
  already finalised recipient passed to it would be finalised again.
  `OnPending` states the caller's duty not to do that. The ledger is
  proved only under that duty. The duty is stated on the collaborator's
  result: a call that fails finalises nothing, so only a successful one
  needs a pending recipient. A caller that cannot foresee the result meets
  the duty by passing only pending recipients.
- **`smtp_mesg_fail` and `smtp_rcpt_fail`.** On the paths that call a
  collaborator, both read `session->namaddr`
  without checking the session. Only `smtp_site_fail` falls back to
  `"none"`. So a missing session is admissible only on the paths that do not
  read it.
- **Negative codes.** C division truncates: `-450 / 100` is `-4`. So no
  negative code is soft or hard.

## Model

| member | source | states |
|---|---|---|
| SmtpCodes.SoftRange | postfix/src/smtp/smtp_trouble.c:138 | SMTP_SOFT holds exactly for codes 400..499 |
| SmtpCodes.HardRange | postfix/src/smtp/smtp_trouble.c:139 | SMTP_HARD holds exactly for codes 500..599 |
| SmtpCodes.SoftHardExclusive | postfix/src/smtp/smtp_trouble.c:138-139 | no code is both soft and hard |
| SmtpCodes.ProtocolErrorRange | postfix/src/smtp/smtp_trouble.c:156-158 | a code is not a protocol error exactly when it is in 400..499, 510..554 or 556..599 |
| SmtpCodes.ClassificationExamples | postfix/src/smtp/smtp_trouble.c:138-158 | 421/450/499 soft; 550/552/503/555/501 hard; 250/354 neither; 555, 501, 250 and -550 are protocol errors, 550/450/554 are not |
| SmtpCodes.MaskAfterCheck | postfix/src/smtp/smtp_trouble.c:143-160 | a protocol error sets the MAIL_ERROR_PROTOCOL bit; any other code leaves the mask unchanged |
| SmtpCodes.MaskAfterCheckKeeps | postfix/src/smtp/smtp_trouble.c:159 | the check keeps every bit the mask had |
| SmtpCodes.MaskAfterCheckOnly | postfix/src/smtp/smtp_trouble.c:159 | the check changes no bit other than MAIL_ERROR_PROTOCOL |
| Ledger.SweepUpTo | postfix/src/smtp/smtp_trouble.c:197-211 | the recipient loop keeps the length of the recipient list |
| Ledger.SweepRecipients | postfix/src/smtp/smtp_trouble.c:197-211 | after visiting recipients 0..k-1, recipient i is finalised (offset 0, addresses kept) exactly when i < k, it was pending in the original list, the pass finalises and its call returned 0; every other recipient is unchanged |
| Ledger.SweepCallCounts | postfix/src/smtp/smtp_trouble.c:199-205 | each visited pending recipient gets exactly one call of the pass's action, and none of the other action; a recipient that was finalised, or not yet visited, gets none |
| Ledger.SweepCompletionCounts | postfix/src/smtp/smtp_trouble.c:206-209 | deliver_completed is called exactly once for each recipient the pass finalises and never for any other index |
| Ledger.SweepEvents | postfix/src/smtp/smtp_trouble.c:201-207 | every call carries the recipient's original addresses and offset, the pass's host and reason, and concerns a visited recipient |
| Ledger.SweepOrder | postfix/src/smtp/smtp_trouble.c:197 | the calls are made in recipient order |
| Ledger.SweepCompletions | postfix/src/smtp/smtp_trouble.c:201-208 | every deliver_completed call comes right after the successful defer/bounce call for the same recipient |
| Ledger.StatusUpToZero | postfix/src/smtp/smtp_trouble.c:210 | the status after the loop is zero exactly when it was zero and every call for a pending recipient returned zero |
| Ledger.StatusUpToKeeps | postfix/src/smtp/smtp_trouble.c:210 | the loop keeps every bit the status had |
| Ledger.StatusUpToCovers | postfix/src/smtp/smtp_trouble.c:210 | every bit of a pending recipient's call result is in the final status |
| Ledger.StatusUpToCoversAll | postfix/src/smtp/smtp_trouble.c:210 | the same, for all pending recipients at once |
| Ledger.StatusUpToLeast | postfix/src/smtp/smtp_trouble.c:210 | the loop adds no other bit: any word that covers the old status and every pending result covers the final status |
| Ledger.SweepKeepsLedger | postfix/src/smtp/smtp_trouble.c:197-211 | a full pass keeps the ledger: recipients only lose their offset, and deliver_completed is called exactly once for each recipient that started pending and is now finalised |
| Disposition.StatusUpToPass | postfix/src/smtp/smtp_trouble.c:210 | the status a pass leaves behind keeps the old bits, covers every pending result, has no other bit, and is zero exactly when all were zero |
| Disposition.AfterPassStatus | postfix/src/smtp/smtp_trouble.c:196-211 | the same, stated for the state after the pass |
| Disposition.AfterPassDone | postfix/src/smtp/smtp_trouble.c:196-211 | the pass does all of: finalises exactly the pending recipients whose call succeeded, appends exactly the calls above after the old trace, and leaves the status above |
| Disposition.SiteFailSkips | postfix/src/smtp/smtp_trouble.c:187-190 | a soft error before the final server sets the status to all ones and touches no recipient, trace, flag or hop status |
| Disposition.SiteFailFinalises | postfix/src/smtp/smtp_trouble.c:196-214 | otherwise every pending recipient is deferred (soft) or bounced (any other code) with the session's name or "none", finalised on success, and the final server flag is up |
| Disposition.SiteFailHopStatus | postfix/src/smtp/smtp_trouble.c:212-213 | the hop status changes exactly on a soft error at the final server when none was cached, and then becomes the reason |
| Disposition.MesgFailSkips | postfix/src/smtp/smtp_trouble.c:250-253 | a soft error before the final server sets the status to all ones and touches no recipient, trace or flag |
| Disposition.MesgFailFinalises | postfix/src/smtp/smtp_trouble.c:259-275 | otherwise every pending recipient is deferred or bounced once, finalised on success, and the final server flag is up |
| Disposition.MesgFailHopStatus | postfix/src/smtp/smtp_trouble.c:227-283 | smtp_mesg_fail never changes the hop status |
| Disposition.RcptFailSkips | postfix/src/smtp/smtp_trouble.c:302-337 | a soft error before the final server sets the status to all ones and touches no recipient or trace |
| Disposition.RcptFailCalls | postfix/src/smtp/smtp_trouble.c:324-335 | otherwise exactly one call, of the action the code calls for, about that recipient with the session's name; the recipient is finalised (offset cleared, deliver_completed with its old offset last) exactly when the call returned 0; no other recipient changes; the old trace is kept as a prefix and one or two events are appended |
| Disposition.RcptFailStatus | postfix/src/smtp/smtp_trouble.c:337 | the status keeps its bits and, when a call was made, covers its result and is zero exactly when both were zero |
| Disposition.RcptFailKeepsFlags | postfix/src/smtp/smtp_trouble.c:313-335 | smtp_rcpt_fail never changes the final server flag or the hop status |
| Disposition.RcptFailKeepsLedger | postfix/src/smtp/smtp_trouble.c:326-335 | smtp_rcpt_fail keeps the ledger when the recipient it finalises was still pending |
| Disposition.StreamExceptSkips | postfix/src/smtp/smtp_trouble.c:370-373 | before the final server the status becomes all ones and no recipient or trace changes |
| Disposition.StreamExceptDefers | postfix/src/smtp/smtp_trouble.c:356-389 | at the final server every pending recipient gets exactly one defer call with the end-of-file or time-out reason; no bounce, no deliver_completed, no offset cleared |
| Disposition.StreamExceptKeepsFlags | postfix/src/smtp/smtp_trouble.c:342-397 | smtp_stream_except never changes the error mask, the final server flag or the hop status |
| Disposition.ApplyKeepsLedger | postfix/src/smtp/smtp_trouble.c:164-390 | every handler keeps the ledger (smtp_rcpt_fail under its caller's duty) |
| Disposition.ApplyFinalServer | postfix/src/smtp/smtp_trouble.c:51-54 | no handler lowers the final server flag; only smtp_site_fail or smtp_mesg_fail with a code that is not soft raises it |
| Disposition.ApplyErrorMask | postfix/src/smtp/smtp_trouble.c:216 | every handler but smtp_stream_except applies smtp_check_code to its code; smtp_stream_except leaves the mask alone |
| Disposition.ApplyKeepsFinalised | postfix/src/smtp/smtp_trouble.c:199-200 | a finalised recipient is left as it is; a pending one at most loses its offset |
| Disposition.RunKeepsLedger | postfix/src/smtp/smtp_trouble.c:199-208 | over any sequence of admissible failure reports no recipient is finalised twice |
| Disposition.RunFinalServer | postfix/src/smtp/smtp_trouble.c:63-65 | once raised, the final server flag stays up for the rest of the delivery |
| Disposition.RunKeepsFinalised | postfix/src/smtp/smtp_trouble.c:199-200 | once finalised, a recipient stays finalised over any sequence of failure reports |
| SmtpTrouble.SmtpState.CheckCode | postfix/src/smtp/smtp_trouble.c:143-160 | the error mask becomes MaskAfterCheck of the old mask |
| SmtpTrouble.SmtpState.SweepPending | postfix/src/smtp/smtp_trouble.c:197-211 | the loop updates the recipient array in place to what the pass over the original list gives, ORs exactly the pending results into the status, and appends the pass's calls to the trace |
| SmtpTrouble.SmtpState.SiteFail | postfix/src/smtp/smtp_trouble.c:164-222 | returns -1; the new state is Disposition.SiteFail of the old one; the ledger is kept |
| SmtpTrouble.SmtpState.MesgFail | postfix/src/smtp/smtp_trouble.c:227-283 | returns -1; the new state is Disposition.MesgFail of the old one; the ledger is kept |
| SmtpTrouble.SmtpState.RcptFail | postfix/src/smtp/smtp_trouble.c:288-338 | the new state is Disposition.RcptFail of the old one; the ledger is kept when the recipient it may finalise was pending |
| SmtpTrouble.SmtpState.StreamExcept | postfix/src/smtp/smtp_trouble.c:342-397 | returns -1; the new state is Disposition.StreamExcept of the old one; the ledger is kept |

## Left out

- Logging: the `msg_info` calls and the `vstring` formatting. A reason is an
  opaque string, and a `format` with its arguments is modelled as the string
  it produces.
- Arguments passed through unexamined: `queue_id`, the trace flags,
  `arrival_time`, and `state->src`, the first argument of
  `deliver_completed`. They do not affect the policy, so a recorded
  `deliver_completed` call holds only the recipient and its offset.
- The bodies of `defer_append`, `bounce_append` and `deliver_completed`. They
  are calls into code outside the model; their results are inputs, and the
  calls are recorded in a trace.
- Memory management: `vstring_alloc`, `vstring_free` and `mystrdup`.
- The panic in `smtp_stream_except` on an unknown exception becomes a
  precondition.
- The same goes for the null-session dereference in `smtp_mesg_fail`,
  `smtp_rcpt_fail` and `smtp_stream_except`: each is a precondition on the
  paths that read the session.
- `MAIL_ERROR_PROTOCOL`, `SMTP_ERR_EOF` and `SMTP_ERR_TIME` come from
  headers that are not part of this model. The values are those Postfix
  uses, and no proof depends on them beyond their being distinct.
- `smtp_rcpt_fail`'s recipient pointer is an index into the request's
  recipient array.
- The deadline and minimum data-rate tracker of the SMTP stream layer is
  not part of this model: none of the modelled files contains it.
- postfix/src/postconf/postconf_builtin.c (configuration lookup) is context,
  not policy, and is not modelled.
- Disposition.ApplyErrorMask: states the mask through MaskAfterCheck rather
  than bit by bit; the bit-level facts are MaskAfterCheckKeeps and
  MaskAfterCheckOnly.
