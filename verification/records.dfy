/**
 The `staff_onboardings` table as an abstract store: one record per
 (user id, onboarding id) pair, holding the onboarding state and the
 verdict written when a reviewer decides.
 */
module Records {

  datatype Option<+T> = None | Some(value: T)

  /** A Discord user id (a snowflake). */
  type UserId = nat

  /** The onboarding context of a server, as returned by the setup lookup. */
  type OnboardingId = string

  /** The states of `OnboardState` that the deny command tells apart; every
      other variant is `Other`, carrying its name. */
  datatype State = Pending | Claimed | InQuiz | Other(name: string)

  /** The JSON verdict `{action, reason, end_review_time}`. */
  datatype Verdict = Verdict(action: string, reason: string, endReviewTime: int)

  datatype Record = Record(state: State, verdict: Option<Verdict>)

  /** The `user_id` and `id` columns that both queries filter on. */
  type Key = (UserId, OnboardingId)

  type Store = map<Key, Record>

  /** `SELECT state ... WHERE user_id = $1 AND id = $2` with `fetch_one`:
      a missing row is an error, never a default. */
  function SelectState(store: Store, key: Key): (r: Option<State>)
    ensures r.Some? <==> key in store
    ensures r.Some? ==> r.value == store[key].state
  {
    if key in store then Some(store[key].state) else None
  }

  /** `UPDATE ... SET state = $1, verdict = $2 WHERE user_id = $3 AND id = $4`.
      The WHERE clause names the row only: the write does not look at the
      stored state, and touches no row when the key is absent. */
  function Update(store: Store, key: Key, state: State, verdict: Verdict): (r: Store)
    ensures r.Keys == store.Keys
    ensures key in store ==> r[key] == Record(state, Some(verdict))
    ensures forall k :: k in store && k != key ==> r[k] == store[k]
  {
    if key in store then store[key := Record(state, Some(verdict))] else store
  }

  /** Writing the same values twice leaves what writing once leaves. */
  lemma UpdateIdempotent(store: Store, key: Key, state: State, verdict: Verdict)
    ensures Update(Update(store, key, state, verdict), key, state, verdict)
         == Update(store, key, state, verdict)
  {
  }

  /** Two writes to one row: the second overwrites the first whatever it
      wrote, since no write compares against the stored state. */
  lemma UpdateLastWins(store: Store, key: Key, s1: State, v1: Verdict, s2: State, v2: Verdict)
    ensures Update(Update(store, key, s1, v1), key, s2, v2) == Update(store, key, s2, v2)
  {
  }
}
