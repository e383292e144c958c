/**
 The literal texts the deny command sends or returns, and the quiz link
 `<panel_url>/onboarding/quiz/<onboarding_id>` embedded in two of them.
 */
module Texts {
  import opened Records

  /** `needle` occurs in `hay` starting at position `i`. */
  predicate OccursAt(hay: string, needle: string, i: int)
  {
    0 <= i && i + |needle| <= |hay| && hay[i..i + |needle|] == needle
  }

  predicate Contains(hay: string, needle: string)
  {
    exists i | 0 <= i <= |hay| :: OccursAt(hay, needle, i)
  }

  /** `a + needle + b` contains `needle`, right after `a`. */
  lemma ContainsMiddle(a: string, needle: string, b: string)
    ensures OccursAt(a + needle + b, needle, |a|)
    ensures Contains(a + needle + b, needle)
  {
    var hay := a + needle + b;
    assert hay[|a|..|a| + |needle|] == needle;
    assert OccursAt(hay, needle, |a|);
  }

  const QuizPath: string := "/onboarding/quiz/"

  /** The quiz location for an onboarding context. */
  function QuizUrl(panelUrl: string, id: OnboardingId): (u: string)
    ensures |u| == |panelUrl| + |QuizPath| + |id|
    ensures u[..|panelUrl|] == panelUrl
    ensures u[|panelUrl| + |QuizPath|..] == id
  {
    panelUrl + QuizPath + id
  }

  /** Recovers the onboarding id from a quiz link under `panelUrl`. */
  function QuizIdOf(panelUrl: string, u: string): (r: Option<OnboardingId>)
    ensures r.Some? ==> QuizUrl(panelUrl, r.value) == u
  {
    var n := |panelUrl| + |QuizPath|;
    if n <= |u| && u[..|panelUrl|] == panelUrl && u[|panelUrl|..n] == QuizPath
    then
      assert u == u[..|panelUrl|] + u[|panelUrl|..n] + u[n..];
      Some(u[n..])
    else None
  }

  /** The link determines the onboarding id it was built from. */
  lemma QuizUrlRoundTrip(panelUrl: string, id: OnboardingId)
    ensures QuizIdOf(panelUrl, QuizUrl(panelUrl, id)) == Some(id)
  {
  }

  /** Distinct onboarding ids get distinct quiz links. */
  lemma QuizUrlInjective(panelUrl: string, id1: OnboardingId, id2: OnboardingId)
    requires QuizUrl(panelUrl, id1) == QuizUrl(panelUrl, id2)
    ensures id1 == id2
  {
  }

  /** Error for a record still in `Pending`: points at the queue command. */
  function NotStartedText(prefix: string): (t: string)
    ensures Contains(t, prefix + "queue")
  {
    ContainsMiddle("Please run ``", prefix + "queue", "`` to get started!");
    "Please run ``" + (prefix + "queue") + "`` to get started!"
  }

  /** Error for a record already in `InQuiz`: points at the quiz. */
  function AlreadyDecidedText(panelUrl: string, id: OnboardingId): (t: string)
    ensures Contains(t, QuizUrl(panelUrl, id))
  {
    ContainsMiddle(RevisitHead, QuizUrl(panelUrl, id), RevisitTail);
    RevisitHead + QuizUrl(panelUrl, id) + RevisitTail
  }

  /** The message sent two seconds after a successful denial. */
  function QuizAnnouncement(panelUrl: string, id: OnboardingId): (t: string)
    ensures Contains(t, QuizUrl(panelUrl, id))
  {
    ContainsMiddle(AnnouncementHead, QuizUrl(panelUrl, id), AnnouncementTail);
    AnnouncementHead + QuizUrl(panelUrl, id) + AnnouncementTail
  }

  // The literal text around the quiz link in the two messages that carry it,
  // including the line breaks and trailing indentation of the source's
  // multi-line string literals.
  const RevisitHead: string := "\n*Paradise Protection Protocol activated*\n\nVisit "
  const RevisitTail: string := " to take the quiz!\n                "
  const AnnouncementHead: string :=
    "\n*Paradise Protection Protocol activated, deploying defenses!!!*\n\nOh well, good luck with the quiz: "
  const AnnouncementTail: string := "\n                "

  const Acknowledgement: string := "Oh great work in denying this bo-!"
  const KickAuditReason: string := "Activated Paradise Protection Protocol"
  const OnboardingIdMissingText: string := "Onboarding ID not found for this server?"
  const NotYetActionableText: string := "Hmm... seems like you can't use this command yet!"
  const GuildMissingText: string := "Failed to get guild"
  const DenyAction: string := "deny"
}
