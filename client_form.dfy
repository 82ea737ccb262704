/** The browser's state around a submission: the 30-second throttle held in
    the global `lastSubmission`, and the contact form whose submit handler
    validates, posts to the form service, and resets or reports. */
module ClientForm {
  import opened Wrappers
  import opened ClientValidation

  // -------------------------------------------------------------- throttle

  const RateLimitMs := 30000

  /** The test of `checkRateLimit`: a call at `now` passes unless fewer than
      30 000 ms have elapsed since the last call that passed. */
  predicate Allows(last: int, now: int) {
    now - last >= RateLimitMs
  }

  /** The global `lastSubmission` and the function that guards it. */
  class RateLimiter {
    var lastSubmission: int

    /** `lastSubmission` starts at 0. */
    constructor ()
      ensures lastSubmission == 0
    {
      lastSubmission := 0;
    }

    /** `checkRateLimit()` at clock reading `now`: a refused call changes
        nothing; an allowed one records `now`. */
    method CheckRateLimit(now: int) returns (allowed: bool)
      modifies this
      ensures allowed <==> Allows(old(lastSubmission), now)
      ensures allowed ==> lastSubmission == now
      ensures !allowed ==> lastSubmission == old(lastSubmission)
    {
      if now - lastSubmission < RateLimitMs {
        return false;
      }
      lastSubmission := now;
      return true;
    }
  }

  /** The clock readings among `times` that a limiter starting from `last`
      lets through, when `checkRateLimit` is called at each of them in turn. */
  function Throttle(last: int, times: seq<int>): seq<int>
    decreases |times|
  {
    if times == [] then []
    else if Allows(last, times[0]) then [times[0]] + Throttle(times[0], times[1..])
    else Throttle(last, times[1..])
  }

  /** Whatever the clock does, calls that pass are at least 30 000 ms after
      the starting timestamp and after one another, and each is one of the calls. */
  lemma {:induction false} ThrottleSpacing(last: int, times: seq<int>)
    ensures var passed := Throttle(last, times);
      && (passed != [] ==> passed[0] - last >= RateLimitMs)
      && (forall k :: 0 <= k < |passed| - 1 ==> passed[k + 1] - passed[k] >= RateLimitMs)
      && (forall k :: 0 <= k < |passed| ==> passed[k] in times)
      && |passed| <= |times|
    decreases |times|
  {
    if times != [] {
      var rest := times[1..];
      ThrottleSpacing(times[0], rest);
      ThrottleSpacing(last, rest);
      assert forall t :: t in rest ==> t in times;
    }
  }

  /** After the first `i` readings of `times`, the calls that passed so far are
      `passed` and the limiter holds `last`: the last of them, or `start`. */
  ghost predicate ThrottledUpTo(start: int, times: seq<int>, i: nat, passed: seq<int>, last: int) {
    && i <= |times|
    && passed + Throttle(last, times[i..]) == Throttle(start, times)
    && last == if passed == [] then start else passed[|passed| - 1]
  }

  /** One more call to `checkRateLimit` keeps `ThrottledUpTo`. */
  lemma ThrottledAdvances(start: int, times: seq<int>, i: nat, passed: seq<int>, last: int)
    requires ThrottledUpTo(start, times, i, passed, last) && i < |times|
    ensures Allows(last, times[i]) ==> ThrottledUpTo(start, times, i + 1, passed + [times[i]], times[i])
    ensures !Allows(last, times[i]) ==> ThrottledUpTo(start, times, i + 1, passed, last)
  {
    assert times[i..][0] == times[i] && times[i..][1..] == times[i + 1..];
    if Allows(last, times[i]) {
      assert passed + [times[i]] + Throttle(times[i], times[i + 1..])
          == passed + ([times[i]] + Throttle(times[i], times[i + 1..]));
    }
  }

  /** `checkRateLimit` called at each clock reading of `times` in turn: the
      calls that pass are those `Throttle` picks, so they are spaced as
      `ThrottleSpacing` says, and the limiter ends holding the last of them. */
  method CallRepeatedly(limiter: RateLimiter, times: seq<int>) returns (passed: seq<int>)
    modifies limiter
    ensures passed == Throttle(old(limiter.lastSubmission), times)
    ensures passed != [] ==> passed[0] - old(limiter.lastSubmission) >= RateLimitMs
    ensures forall k :: 0 <= k < |passed| - 1 ==> passed[k + 1] - passed[k] >= RateLimitMs
    ensures limiter.lastSubmission == if passed == [] then old(limiter.lastSubmission) else passed[|passed| - 1]
  {
    ghost var start := limiter.lastSubmission;
    passed := [];
    for i := 0 to |times|
      invariant ThrottledUpTo(start, times, i, passed, limiter.lastSubmission)
    {
      ThrottledAdvances(start, times, i, passed, limiter.lastSubmission);
      var allowed := limiter.CheckRateLimit(times[i]);
      if allowed {
        passed := passed + [times[i]];
      }
    }
    assert times[|times|..] == [];
    ThrottleSpacing(start, times);
  }

  // ------------------------------------------------------------------ form

  /** What the browser learns from `submitToNetlify`: a response whose `ok`
      flag it reads, or a rejected `fetch`. */
  datatype NetReply = Responded(ok: bool) | NetworkError

  /** The notification shown to the visitor. */
  datatype Notice = Success | Failure(message: string)

  const MsgSendFailed := "Erreur lors de l'envoi. Veuillez réessayer."

  /** The contact form of the page: the field values, the values `reset()`
      restores, the submit button's `disabled` flag, the last notification,
      and every body handed to the form service. */
  class ContactForm {
    var values: FormValues
    var defaults: FormValues
    var buttonDisabled: bool
    var notice: Option<Notice>
    var posted: seq<FormValues>

    constructor (initial: FormValues)
      ensures values == initial && defaults == initial
      ensures !buttonDisabled && notice == None && posted == []
    {
      values, defaults := initial, initial;
      buttonDisabled, notice, posted := false, None, [];
    }

    /** One press of the submit button, with `reply` the outcome of the
        network call if one is made. A failed local check shows its message
        and nothing is sent; otherwise the raw values are posted once, the
        button ends enabled whatever happened, and only an `ok` response
        resets the form. */
    method Submit(reply: NetReply)
      modifies this
      ensures defaults == old(defaults)
      ensures LocalCheck(old(values)).Some? ==>
        && notice == Some(Failure(LocalCheck(old(values)).value))
        && values == old(values) && posted == old(posted)
        && buttonDisabled == old(buttonDisabled)
      ensures LocalCheck(old(values)) == None ==>
        && posted == old(posted) + [old(values)]
        && !buttonDisabled
        && (reply == Responded(true) ==> values == defaults && notice == Some(Success))
        && (reply != Responded(true) ==> values == old(values) && notice == Some(Failure(MsgSendFailed)))
    {
      var problem := LocalCheck(values);
      if problem.Some? {
        notice := Some(Failure(problem.value));
        return;
      }
      buttonDisabled := true;
      posted := posted + [values];
      match reply {
        case Responded(ok) =>
          if ok {
            notice := Some(Success);
            values := defaults;
          } else {
            notice := Some(Failure(MsgSendFailed));
          }
        case NetworkError =>
          notice := Some(Failure(MsgSendFailed));
      }
      buttonDisabled := false;
    }
  }

  /** The visitor's view of one press on a filled form: it is sent exactly
      when the three local checks pass, and the failure message names the
      first check that fails. */
  method PressSubmit(f: FormValues, reply: NetReply) returns (sent: bool, shown: Option<Notice>)
    ensures sent <==> AllFilled(f) && IsValidEmail(f.email) && IsValidPhone(f.phone)
    ensures !AllFilled(f) ==> shown == Some(Failure(MsgFillAll))
    ensures AllFilled(f) && !IsValidEmail(f.email) ==> shown == Some(Failure(MsgBadEmail))
    ensures AllFilled(f) && IsValidEmail(f.email) && !IsValidPhone(f.phone) ==>
      shown == Some(Failure(MsgBadPhone))
    ensures sent ==> shown == Some(if reply == Responded(true) then Success else Failure(MsgSendFailed))
  {
    var form := new ContactForm(f);
    form.Submit(reply);
    LocalCheckOrder(f);
    sent, shown := |form.posted| == 1, form.notice;
  }
}
