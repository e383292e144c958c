/**
 The `deny` reviewer command: a candidate who has claimed a test bot
 denies it with a reason. From `Claimed`, with the configured test bot as
 target and a reason of at least 30 bytes, the record moves to `InQuiz`
 with a deny verdict, the test bot is kicked, and the candidate is sent to
 the quiz. Every other case replies or fails without touching the store.
 */
module Deny {
  import opened Records
  import opened Effects
  import opened Texts
  import opened Utf8

  /** The configuration the command reads: the test bot's id and the base
      URL of the staff panel. */
  datatype Config = Config(testBot: UserId, panelUrl: string)

  /** One invocation: who ran it, the member named, the reason given, the
      command prefix in use, the clock reading at the write, and the server
      it ran in, if any. */
  datatype Invocation = Invocation(
    author: UserId,
    member: UserId,
    reason: string,
    prefix: string,
    now: int,
    guild: Option<GuildId>)

  /** The answer of the server's onboarding-id lookup. */
  datatype Lookup = LookupError | NoOnboarding | Found(id: OnboardingId)

  const MinReasonBytes: nat := 30
  const QuizDelaySeconds: nat := 2

  function KeyOf(inv: Invocation, id: OnboardingId): Key
  {
    (inv.author, id)
  }

  function DenyVerdict(inv: Invocation): Verdict
  {
    Verdict(DenyAction, inv.reason, inv.now)
  }

  /** The write that records the denial. */
  function CommitEvent(inv: Invocation, id: OnboardingId): Event
  {
    Write(KeyOf(inv, id), InQuiz, DenyVerdict(inv))
  }

  /** The record the denial leaves behind. */
  function Denied(inv: Invocation): Record
  {
    Record(InQuiz, Some(DenyVerdict(inv)))
  }

  /** All guards pass: the record is claimed, the target is the test bot and
      the reason is long enough in bytes. */
  predicate Admissible(state: State, cfg: Config, inv: Invocation)
  {
    state == Claimed && inv.member == cfg.testBot && ByteLen(inv.reason) >= MinReasonBytes
  }

  /** What the guards admit, in characters: the byte bound lets through
      reasons of as few as eight characters, and every reason of thirty
      characters or more. */
  lemma AdmissibleReasonBounds(state: State, cfg: Config, inv: Invocation)
    ensures Admissible(state, cfg, inv) ==>
              state == Claimed && inv.member == cfg.testBot && |inv.reason| >= 8
    ensures state == Claimed && inv.member == cfg.testBot && |inv.reason| >= MinReasonBytes ==>
              Admissible(state, cfg, inv)
  {
  }

  /** The calls of a committed denial, in order, from the read onwards. Without
      a server to kick from, the command stops right after the write. */
  function CommitTrace(cfg: Config, inv: Invocation, id: OnboardingId): seq<Event>
  {
    [Read(KeyOf(inv, id)), CommitEvent(inv, id)] +
    match inv.guild
    case None => []
    case Some(g) =>
      [ Kick(g, cfg.testBot, KickAuditReason),
        Say(Acknowledgement),
        Sleep(QuizDelaySeconds),
        Say(QuizAnnouncement(cfg.panelUrl, id)) ]
  }

  /** What the command body does once it has read `state`. */
  function Plan(state: State, cfg: Config, inv: Invocation, id: OnboardingId): (p: seq<Step>)
    ensures |p| >= 1
    // Outside `Claimed` the body returns an error at once.
    ensures state != Claimed ==> |p| == 1 && p[0].Abort?
    // A wrong target is warned about before the reason is looked at.
    ensures state == Claimed && inv.member != cfg.testBot ==> p == [Do(Warn(InvalidBot))]
    // The write is planned exactly when every guard passes, and then first.
    ensures p[0] == Do(CommitEvent(inv, id)) <==> Admissible(state, cfg, inv)
  {
    match state
    case Pending => [Abort(NotStarted(inv.prefix))]
    case Claimed =>
      if inv.member != cfg.testBot then [Do(Warn(InvalidBot))]
      else if ByteLen(inv.reason) < MinReasonBytes then [Do(Warn(InvalidReason))]
      else
        var rest := match inv.guild
          case None => [Abort(GuildNotFound)]
          case Some(g) =>
            [ Do(Kick(g, cfg.testBot, KickAuditReason)),
              Do(Say(Acknowledgement)),
              Do(Sleep(QuizDelaySeconds)),
              Do(Say(QuizAnnouncement(cfg.panelUrl, id))) ];
        [Do(CommitEvent(inv, id))] + rest
    case InQuiz => [Abort(AlreadyDecided(cfg.panelUrl, id))]
    case Other(_) => [Abort(NotYetActionable)]
  }

  /** The whole command, with the calls in `faults` returning an error. */
  function Deny(store: Store, cfg: Config, inv: Invocation, lookup: Lookup, faults: set<Event>): (r: Run)
    // Without an onboarding id nothing is read and nothing is written.
    ensures !lookup.Found? ==> r.trace == [] && r.store == store && r.outcome.Failed?
    ensures lookup == LookupError ==> r.outcome == Failed(LookupFailed)
    ensures lookup == NoOnboarding ==> r.outcome == Failed(OnboardingIdNotFound)
    // Every completed call starts with the read of the author's record.
    ensures r.trace != [] ==> lookup.Found? && r.trace[0] == Read(KeyOf(inv, lookup.id))
    ensures lookup.Found? && KeyOf(inv, lookup.id) !in store ==> r.store == store && r.outcome.Failed?
    // A missing row is the database's row-not-found error, not a state error.
    ensures lookup.Found? && Read(KeyOf(inv, lookup.id)) !in faults && KeyOf(inv, lookup.id) !in store ==>
              r.outcome == Failed(RecordNotFound)
    // A failing read passes the database's error up unchanged.
    ensures lookup.Found? && Read(KeyOf(inv, lookup.id)) in faults ==>
              r.outcome == Failed(CallFailed(Read(KeyOf(inv, lookup.id)))) && r.trace == [] && r.store == store
  {
    match lookup
    case LookupError => Run(Failed(LookupFailed), [], store)
    case NoOnboarding => Run(Failed(OnboardingIdNotFound), [], store)
    case Found(id) =>
      var key := KeyOf(inv, id);
      if Read(key) in faults then Run(Failed(CallFailed(Read(key))), [], store)
      else
        match SelectState(store, key)
        case None => Run(Failed(RecordNotFound), [], store)
        case Some(state) =>
          var rest := Execute(Plan(state, cfg, inv, id), store, faults);
          Run(rest.outcome, [Read(key)] + rest.trace, rest.store)
  }

  /** A record that is not `Claimed` gets an error naming what to do instead;
      after the read, nothing else happens. */
  lemma DenyRejects(store: Store, cfg: Config, inv: Invocation, id: OnboardingId, faults: set<Event>)
    requires KeyOf(inv, id) in store && store[KeyOf(inv, id)].state != Claimed
    requires Read(KeyOf(inv, id)) !in faults
    ensures var r := Deny(store, cfg, inv, Found(id), faults);
            && r.trace == [Read(KeyOf(inv, id))]
            && r.store == store
            && r.outcome == Failed(match store[KeyOf(inv, id)].state
                                   case Pending => NotStarted(inv.prefix)
                                   case InQuiz => AlreadyDecided(cfg.panelUrl, id)
                                   case _ => NotYetActionable)
  {
  }

  /** A claimed record with the wrong target or a short reason gets one
      warning and `Ok(())`: no write and no kick. The target is checked
      first, so a wrong target is reported whatever the reason. */
  lemma DenyWarns(store: Store, cfg: Config, inv: Invocation, id: OnboardingId, faults: set<Event>)
    requires KeyOf(inv, id) in store && store[KeyOf(inv, id)].state == Claimed
    requires !Admissible(Claimed, cfg, inv)
    requires Read(KeyOf(inv, id)) !in faults
    ensures var r := Deny(store, cfg, inv, Found(id), faults);
            var w := if inv.member != cfg.testBot then InvalidBot else InvalidReason;
            && r.store == store
            && (Warn(w) !in faults ==> r.outcome == Done && r.trace == [Read(KeyOf(inv, id)), Warn(w)])
            && (Warn(w) in faults ==> r.outcome == Failed(CallFailed(Warn(w))) && r.trace == [Read(KeyOf(inv, id))])
  {
  }

  /** A write with no further write after it leaves the store as that write does. */
  lemma ApplyAllSingleWrite(store: Store, trace: seq<Event>)
    requires trace != [] && trace[0].Write?
    requires forall i :: 1 <= i < |trace| ==> !trace[i].Write?
    ensures ApplyAll(store, trace) == Apply(store, trace[0])
  {
    assert forall i :: 0 <= i < |trace[1..]| ==> trace[1..][i] == trace[i + 1];
    ApplyAllReadOnly(Apply(store, trace[0]), trace[1..]);
  }

  /** The steps planned for an admissible record, against `CommitTrace`:
      the write first, then either the early return for a missing server or
      the remaining calls of the trace. */
  lemma CommitPlanSteps(cfg: Config, inv: Invocation, id: OnboardingId)
    requires Admissible(Claimed, cfg, inv)
    ensures var plan := Plan(Claimed, cfg, inv, id);
            var ct := CommitTrace(cfg, inv, id);
            && ct[1] == CommitEvent(inv, id)
            && (inv.guild.None? ==> |ct| == 2 && plan == [Do(ct[1]), Abort(GuildNotFound)])
            && (inv.guild.Some? ==>
                  && |plan| == |ct| - 1
                  && forall i :: 0 <= i < |plan| ==> plan[i] == Do(ct[i + 1]))
  {
  }

  /** The command's calls after the read, for an admissible record. */
  lemma ExecuteCommitPlan(store: Store, cfg: Config, inv: Invocation, id: OnboardingId, faults: set<Event>)
    requires KeyOf(inv, id) in store
    requires Admissible(Claimed, cfg, inv)
    ensures var ex := Execute(Plan(Claimed, cfg, inv, id), store, faults);
            var ct := CommitTrace(cfg, inv, id);
            && |ex.trace| < |ct|
            && (forall i :: 0 <= i < |ex.trace| ==> ex.trace[i] == ct[i + 1])
            && (|ex.trace| >= 1 <==> CommitEvent(inv, id) !in faults)
            && ex.store == (if |ex.trace| >= 1 then store[KeyOf(inv, id) := Denied(inv)] else store)
            && (ex.outcome.Done? <==> inv.guild.Some? && |ex.trace| == |ct| - 1)
  {
    var plan := Plan(Claimed, cfg, inv, id);
    var ex := Execute(plan, store, faults);
    var ct := CommitTrace(cfg, inv, id);
    CommitPlanSteps(cfg, inv, id);
    if inv.guild.None? {
      assert |ex.trace| <= 1;
    }
    assert forall i :: 0 <= i < |ex.trace| ==> ex.trace[i] == ct[i + 1];
    if ex.trace == [] {
      assert ex.store == store;
    } else {
      assert forall i :: 1 <= i < |ex.trace| ==> !ex.trace[i].Write?;
      ApplyAllSingleWrite(store, ex.trace);
    }
  }

  /** After a successful read of an existing row, the command is the body
      planned for the state it read, run against the same store. */
  lemma DenyAfterRead(store: Store, cfg: Config, inv: Invocation, id: OnboardingId, faults: set<Event>)
    requires KeyOf(inv, id) in store
    requires Read(KeyOf(inv, id)) !in faults
    ensures var r := Deny(store, cfg, inv, Found(id), faults);
            var ex := Execute(Plan(store[KeyOf(inv, id)].state, cfg, inv, id), store, faults);
            r == Run(ex.outcome, [Read(KeyOf(inv, id))] + ex.trace, ex.store)
  {
  }

  /** With a server to kick from and no failing call, the calls after an
      admissible read all complete and leave the record denied. */
  lemma CommitPlanWithoutFaults(store: Store, cfg: Config, inv: Invocation, id: OnboardingId)
    requires KeyOf(inv, id) in store
    requires Admissible(Claimed, cfg, inv)
    requires inv.guild.Some?
    ensures var ex := Execute(Plan(Claimed, cfg, inv, id), store, {});
            ex.outcome == Done && ex.store == store[KeyOf(inv, id) := Denied(inv)]
  {
    var plan := Plan(Claimed, cfg, inv, id);
    var ex := Execute(plan, store, {});
    ExecuteCommitPlan(store, cfg, inv, id, {});
    assert forall i :: 0 <= i < |plan| ==> plan[i].Do?;
    if ex.outcome.Failed? {
      assert false;
    }
  }

  /** `ExecuteCommitPlan` with the read put in front: the calls after an
      admissible read, as a prefix of `CommitTrace`. */
  lemma ReadThenCommitPlan(store: Store, cfg: Config, inv: Invocation, id: OnboardingId, faults: set<Event>)
    requires KeyOf(inv, id) in store
    requires Admissible(Claimed, cfg, inv)
    ensures var ex := Execute(Plan(Claimed, cfg, inv, id), store, faults);
            var ct := CommitTrace(cfg, inv, id);
            var trace := [Read(KeyOf(inv, id))] + ex.trace;
            && 1 <= |trace| <= |ct|
            && trace == ct[..|trace|]
            && (|trace| >= 2 <==> CommitEvent(inv, id) !in faults)
            && ex.store == (if |trace| >= 2 then store[KeyOf(inv, id) := Denied(inv)] else store)
            && (ex.outcome.Done? <==> inv.guild.Some? && trace == ct)
  {
    var ex := Execute(Plan(Claimed, cfg, inv, id), store, faults);
    var ct := CommitTrace(cfg, inv, id);
    ExecuteCommitPlan(store, cfg, inv, id, faults);
    PrefixAfterHead(ct, ex.trace);
  }

  /** A sequence that follows `ct` from its second element on, with `ct`'s
      head put back in front, is a prefix of `ct`. */
  lemma PrefixAfterHead(ct: seq<Event>, tail: seq<Event>)
    requires |tail| < |ct|
    requires forall i :: 0 <= i < |tail| ==> tail[i] == ct[i + 1]
    ensures |[ct[0]] + tail| == |tail| + 1
    ensures [ct[0]] + tail == ct[..|tail| + 1]
  {
  }

  /** When every guard passes, the command makes the calls of `CommitTrace`
      in order up to the first that fails. The write is the first call after
      the read; once it is made the record is denied, and a later failure
      (no server, a failed kick or message) does not undo it. */
  lemma DenyCommits(store: Store, cfg: Config, inv: Invocation, id: OnboardingId, faults: set<Event>)
    requires KeyOf(inv, id) in store && Admissible(store[KeyOf(inv, id)].state, cfg, inv)
    requires Read(KeyOf(inv, id)) !in faults
    ensures var r := Deny(store, cfg, inv, Found(id), faults);
            var ct := CommitTrace(cfg, inv, id);
            && 1 <= |r.trace| <= |ct|
            && r.trace == ct[..|r.trace|]
            && (|r.trace| >= 2 <==> CommitEvent(inv, id) !in faults)
            && r.store == (if |r.trace| >= 2 then store[KeyOf(inv, id) := Denied(inv)] else store)
            && (r.outcome.Done? <==> inv.guild.Some? && r.trace == ct)
  {
    DenyAfterRead(store, cfg, inv, id, faults);
    ReadThenCommitPlan(store, cfg, inv, id, faults);
  }

  /** Every guard passes and neither the read nor the write fails: the
      conditions under which the command commits a denial. */
  predicate Commits(store: Store, cfg: Config, inv: Invocation, lookup: Lookup, faults: set<Event>)
  {
    && lookup.Found?
    && KeyOf(inv, lookup.id) in store
    && Admissible(store[KeyOf(inv, lookup.id)].state, cfg, inv)
    && Read(KeyOf(inv, lookup.id)) !in faults
    && CommitEvent(inv, lookup.id) !in faults
  }

  /** The command writes exactly when it commits; the write is the only
      change to the store, it changes the author's row only, and to the
      denied record; the calls it makes follow `CommitTrace` in order; and
      a command that does not write makes no call but the read and at most
      one warning, so in particular it never kicks. */
  lemma DenyContract(store: Store, cfg: Config, inv: Invocation, lookup: Lookup, faults: set<Event>)
    ensures var r := Deny(store, cfg, inv, lookup, faults);
            HasWrite(r.trace) <==> Commits(store, cfg, inv, lookup, faults)
    ensures var r := Deny(store, cfg, inv, lookup, faults);
            r.store == store <==> !HasWrite(r.trace)
    ensures var r := Deny(store, cfg, inv, lookup, faults);
            HasWrite(r.trace) ==>
              && r.store == store[KeyOf(inv, lookup.id) := Denied(inv)]
              && r.trace <= CommitTrace(cfg, inv, lookup.id)
    ensures var r := Deny(store, cfg, inv, lookup, faults);
            !HasWrite(r.trace) ==>
              |r.trace| <= 2 && forall i :: 0 <= i < |r.trace| ==> r.trace[i].Read? || r.trace[i].Warn?
  {
    var r := Deny(store, cfg, inv, lookup, faults);
    if lookup.Found? && KeyOf(inv, lookup.id) in store && Read(KeyOf(inv, lookup.id)) !in faults {
      var key := KeyOf(inv, lookup.id);
      var state := store[key].state;
      if state != Claimed {
        DenyRejects(store, cfg, inv, lookup.id, faults);
        assert !r.trace[0].Write?;
      } else if !Admissible(state, cfg, inv) {
        DenyWarns(store, cfg, inv, lookup.id, faults);
        assert forall i :: 0 <= i < |r.trace| ==> !r.trace[i].Write?;
      } else {
        DenyCommits(store, cfg, inv, lookup.id, faults);
        var ct := CommitTrace(cfg, inv, lookup.id);
        if |r.trace| >= 2 {
          assert r.trace[1] == ct[1] && ct[1].Write?;
          assert store[key].state != Denied(inv).state;
        } else {
          assert r.trace == [Read(key)];
        }
      }
    } else {
      assert r.trace == [];
    }
  }

  /** The record is `Claimed`, the target is the test bot, the reason has at
      least 30 bytes and no call fails: the record becomes `InQuiz` with the
      deny verdict, nothing else in the store changes, and the command reads,
      writes, kicks the test bot, acknowledges, waits two seconds and sends
      the quiz link, in that order. */
  lemma DenySucceeds(store: Store, cfg: Config, inv: Invocation, id: OnboardingId, faults: set<Event>)
    requires KeyOf(inv, id) in store && store[KeyOf(inv, id)].state == Claimed
    requires inv.member == cfg.testBot && ByteLen(inv.reason) >= MinReasonBytes
    requires inv.guild.Some?
    requires forall e :: e in CommitTrace(cfg, inv, id) && Fallible(e) ==> e !in faults
    ensures var r := Deny(store, cfg, inv, Found(id), faults);
            var key := KeyOf(inv, id);
            && r.outcome == Done
            && key in r.store && r.store[key].state == InQuiz
            && r.store[key].verdict == Some(Verdict("deny", inv.reason, inv.now))
            && (forall k :: k != key ==> (k in r.store <==> k in store))
            && (forall k :: k in store && k != key ==> r.store[k] == store[k])
            && r.trace == [ Read(key),
                            Write(key, InQuiz, Verdict("deny", inv.reason, inv.now)),
                            Kick(inv.guild.value, cfg.testBot, KickAuditReason),
                            Say(Acknowledgement),
                            Sleep(2),
                            Say(QuizAnnouncement(cfg.panelUrl, id)) ]
            && Contains(r.trace[5].text, QuizUrl(cfg.panelUrl, id))
  {
    var ct := CommitTrace(cfg, inv, id);
    var key := KeyOf(inv, id);
    assert ct == [ Read(key),
                   Write(key, InQuiz, Verdict("deny", inv.reason, inv.now)),
                   Kick(inv.guild.value, cfg.testBot, KickAuditReason),
                   Say(Acknowledgement),
                   Sleep(2),
                   Say(QuizAnnouncement(cfg.panelUrl, id)) ];
    assert ct[0] in ct && ct[1] in ct;
    DenyCommits(store, cfg, inv, id, faults);
    DenyCommitsStopsAtFault(store, cfg, inv, id, faults);
    var r := Deny(store, cfg, inv, Found(id), faults);
    if r.outcome.Failed? {
      assert false;
    }
    assert r.trace == ct;
    assert r.store == store[KeyOf(inv, id) := Denied(inv)];
  }

  /** A committed denial that ends early ends at a call that failed. */
  lemma DenyCommitsStopsAtFault(store: Store, cfg: Config, inv: Invocation, id: OnboardingId, faults: set<Event>)
    requires KeyOf(inv, id) in store && Admissible(store[KeyOf(inv, id)].state, cfg, inv)
    requires Read(KeyOf(inv, id)) !in faults
    requires inv.guild.Some?
    ensures var r := Deny(store, cfg, inv, Found(id), faults);
            r.outcome.Failed? ==>
              && |r.trace| < |CommitTrace(cfg, inv, id)|
              && CommitTrace(cfg, inv, id)[|r.trace|] in faults
              && Fallible(CommitTrace(cfg, inv, id)[|r.trace|])
              && r.outcome.error == CallFailed(CommitTrace(cfg, inv, id)[|r.trace|])
  {
    var plan := Plan(Claimed, cfg, inv, id);
    var ex := Execute(plan, store, faults);
    DenyAfterRead(store, cfg, inv, id, faults);
    CommitPlanSteps(cfg, inv, id);
    if ex.outcome.Failed? {
      assert plan[|ex.trace|] == Do(CommitTrace(cfg, inv, id)[|ex.trace| + 1]);
    }
  }

  /** The kick fails after the write: the command returns the failure, but
      the record stays denied. */
  lemma DenyKickFails(store: Store, cfg: Config, inv: Invocation, id: OnboardingId, g: GuildId, faults: set<Event>)
    requires KeyOf(inv, id) in store && Admissible(store[KeyOf(inv, id)].state, cfg, inv)
    requires inv.guild == Some(g)
    requires Read(KeyOf(inv, id)) !in faults && CommitEvent(inv, id) !in faults
    requires Kick(g, cfg.testBot, KickAuditReason) in faults
    ensures var r := Deny(store, cfg, inv, Found(id), faults);
            && r.outcome == Failed(CallFailed(Kick(g, cfg.testBot, KickAuditReason)))
            && r.store == store[KeyOf(inv, id) := Denied(inv)]
            && r.trace == [Read(KeyOf(inv, id)), CommitEvent(inv, id)]
  {
  }

  /** With a server to kick from, a committed denial succeeds exactly when
      none of its calls fails: a failing read, write, kick, acknowledgement
      or quiz message each ends the command with an error. */
  lemma DenyCommitsDoneIff(store: Store, cfg: Config, inv: Invocation, id: OnboardingId, faults: set<Event>)
    requires KeyOf(inv, id) in store && Admissible(store[KeyOf(inv, id)].state, cfg, inv)
    requires inv.guild.Some?
    ensures var r := Deny(store, cfg, inv, Found(id), faults);
            r.outcome.Done? <==>
              forall e :: e in CommitTrace(cfg, inv, id) && Fallible(e) ==> e !in faults
  {
    var r := Deny(store, cfg, inv, Found(id), faults);
    var ct := CommitTrace(cfg, inv, id);
    if Read(KeyOf(inv, id)) in faults {
      assert ct[0] in ct;
    } else {
      DenyCommits(store, cfg, inv, id, faults);
      DenyCommitsStopsAtFault(store, cfg, inv, id, faults);
      if r.outcome.Done? {
        forall e | e in ct && Fallible(e)
          ensures e !in faults
        {
          var i :| 0 <= i < |ct| && ct[i] == e;
          assert r.trace[i] == e;
        }
      } else {
        assert ct[|r.trace|] in ct;
      }
    }
  }

  /** A second denial by the same author after one that committed is turned
      away with the quiz link, and the first verdict stays. */
  lemma DenyAfterDenialRejected(
    store: Store, cfg: Config, inv1: Invocation, inv2: Invocation, id: OnboardingId,
    faults1: set<Event>, faults2: set<Event>)
    requires Commits(store, cfg, inv1, Found(id), faults1)
    requires inv2.author == inv1.author
    requires Read(KeyOf(inv2, id)) !in faults2
    ensures var r1 := Deny(store, cfg, inv1, Found(id), faults1);
            var r2 := Deny(r1.store, cfg, inv2, Found(id), faults2);
            && r2.outcome == Failed(AlreadyDecided(cfg.panelUrl, id))
            && r2.store == r1.store
            && r2.store[KeyOf(inv1, id)].verdict == Some(DenyVerdict(inv1))
  {
    DenyContract(store, cfg, inv1, Found(id), faults1);
    var r1 := Deny(store, cfg, inv1, Found(id), faults1);
    assert r1.store[KeyOf(inv1, id)] == Denied(inv1);
    DenyRejects(r1.store, cfg, inv2, id, faults2);
  }

  /** Two denials by the same author that both read `Claimed` before either
      writes: the write does not compare against the stored state, so both
      commit and succeed, and the later verdict replaces the earlier one. */
  lemma InterleavedDenialsBothCommit(
    store: Store, cfg: Config, inv1: Invocation, inv2: Invocation, id: OnboardingId)
    requires inv2.author == inv1.author
    requires KeyOf(inv1, id) in store && store[KeyOf(inv1, id)].state == Claimed
    requires Admissible(Claimed, cfg, inv1) && Admissible(Claimed, cfg, inv2)
    requires inv1.guild.Some? && inv2.guild.Some?
    ensures var first := Execute(Plan(Claimed, cfg, inv1, id), store, {});
            var second := Execute(Plan(Claimed, cfg, inv2, id), first.store, {});
            && first.outcome == Done
            && second.outcome == Done
            && second.store == store[KeyOf(inv1, id) := Denied(inv2)]
  {
    CommitPlanWithoutFaults(store, cfg, inv1, id);
    var first := Execute(Plan(Claimed, cfg, inv1, id), store, {});
    assert KeyOf(inv2, id) == KeyOf(inv1, id);
    CommitPlanWithoutFaults(first.store, cfg, inv2, id);
  }
}
