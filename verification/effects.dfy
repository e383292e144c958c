/**
 The calls the deny command makes on the outside world, the errors it
 returns, and the sequential execution of a list of such calls in which
 every call is awaited with `?`: the first call that fails ends the
 command with that failure, and what it already did stays done.
 */
module Effects {
  import opened Records
  import Texts

  type GuildId = nat

  /** The two warning embeds the command replies with. */
  datatype Warning = InvalidBot | InvalidReason

  /** An external call, recorded once it has completed. */
  datatype Event =
    | Read(key: Key)
    | Write(key: Key, state: State, verdict: Verdict)
    | Warn(warning: Warning)
    | Kick(guild: GuildId, user: UserId, auditReason: string)
    | Say(text: string)
    | Sleep(seconds: nat)

  /** Every call can return an error except the timer. */
  predicate Fallible(e: Event)
  {
    !e.Sleep?
  }

  /** What the command returns as `Err`. */
  datatype Error =
    | LookupFailed
    | OnboardingIdNotFound
    | RecordNotFound
    | NotStarted(prefix: string)
    | AlreadyDecided(panelUrl: string, id: OnboardingId)
    | NotYetActionable
    | GuildNotFound
    | CallFailed(call: Event)

  /** The text of the errors the command words itself; errors passed up from
      the database or chat library carry that library's text instead. */
  function Message(e: Error): (m: Option<string>)
    ensures m.Some? <==> !(e.LookupFailed? || e.RecordNotFound? || e.CallFailed?)
    ensures e.NotStarted? ==> Texts.Contains(m.value, e.prefix + "queue")
    ensures e.AlreadyDecided? ==> Texts.Contains(m.value, Texts.QuizUrl(e.panelUrl, e.id))
  {
    match e
    case OnboardingIdNotFound => Some(Texts.OnboardingIdMissingText)
    case NotStarted(prefix) => Some(Texts.NotStartedText(prefix))
    case AlreadyDecided(panelUrl, id) => Some(Texts.AlreadyDecidedText(panelUrl, id))
    case NotYetActionable => Some(Texts.NotYetActionableText)
    case GuildNotFound => Some(Texts.GuildMissingText)
    case _ => None
  }

  /** One line of the command body: a call to make, or an early `Err`. */
  datatype Step = Do(event: Event) | Abort(error: Error)

  /** `Ok(())` or `Err(error)`. */
  datatype Outcome = Done | Failed(error: Error)

  /** The result of the command, the calls it completed in order, and the
      store afterwards. */
  datatype Run = Run(outcome: Outcome, trace: seq<Event>, store: Store)

  /** The effect of one completed call on the store. */
  function Apply(store: Store, e: Event): Store
  {
    match e
    case Write(key, state, verdict) => Update(store, key, state, verdict)
    case _ => store
  }

  /** The effect of a sequence of completed calls on the store. */
  function ApplyAll(store: Store, trace: seq<Event>): Store
    decreases |trace|
  {
    if trace == [] then store else ApplyAll(Apply(store, trace[0]), trace[1..])
  }

  predicate HasWrite(trace: seq<Event>)
  {
    exists i | 0 <= i < |trace| :: trace[i].Write?
  }

  /** Calls without a write leave the store as it was. */
  lemma {:induction false} ApplyAllReadOnly(store: Store, trace: seq<Event>)
    requires !HasWrite(trace)
    ensures ApplyAll(store, trace) == store
    decreases |trace|
  {
    if trace != [] {
      assert !trace[0].Write?;
      assert forall i :: 0 <= i < |trace[1..]| ==> trace[1..][i] == trace[i + 1];
      ApplyAllReadOnly(store, trace[1..]);
    }
  }

  /** Running `plan` in order, where the calls in `faults` return an error.
      The trace is the completed prefix of the plan; the command succeeds
      exactly when the whole plan completed; a failure is either the early
      return the plan reached or the call that failed; and the store holds
      exactly the writes of the completed calls. */
  function Execute(plan: seq<Step>, store: Store, faults: set<Event>): (r: Run)
    ensures |r.trace| <= |plan|
    ensures forall i :: 0 <= i < |r.trace| ==> plan[i] == Do(r.trace[i])
    ensures forall i :: 0 <= i < |r.trace| ==> !(Fallible(r.trace[i]) && r.trace[i] in faults)
    ensures r.outcome.Done? <==> |r.trace| == |plan|
    ensures r.outcome.Failed? ==>
              || plan[|r.trace|] == Abort(r.outcome.error)
              || (plan[|r.trace|].Do? && Fallible(plan[|r.trace|].event)
                  && plan[|r.trace|].event in faults
                  && r.outcome.error == CallFailed(plan[|r.trace|].event))
    ensures r.store == ApplyAll(store, r.trace)
    decreases |plan|
  {
    if plan == [] then Run(Done, [], store)
    else
      match plan[0]
      case Abort(e) => Run(Failed(e), [], store)
      case Do(e) =>
        if Fallible(e) && e in faults then Run(Failed(CallFailed(e)), [], store)
        else
          var rest := Execute(plan[1..], Apply(store, e), faults);
          Run(rest.outcome, [e] + rest.trace, rest.store)
  }
}
