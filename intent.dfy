/**
 * The keyword intent classifier, backend/Nodes/intent.py (`IntentClassifier.__call__`), and
 * the update of the conversation state it makes.
 */
module Intent {
  import opened Text

  /** The conversation state: keys to their string values. */
  type State = map<string, string>

  const BookWords: seq<string> := ["book", "appointment", "schedule"]
  const RecommendWords: seq<string> := ["pain", "doctor", "recommend", "fever", "consult"]

  const BookAppointment := "book_appointment"
  const RecommendDoctor := "recommend_doctor"
  const GeneralQuery := "general_query"

  /** `state.get("user_input", "")`. */
  function UserInput(state: State): string {
    if "user_input" in state then state["user_input"] else ""
  }

  /**
   * The label for a user message: a booking word anywhere (in any case) decides first, then a
   * recommendation word, and everything else is a general query.
   */
  function IntentOf(userInput: string): (r: string)
    ensures r == BookAppointment || r == RecommendDoctor || r == GeneralQuery
    ensures r == BookAppointment <==> ContainsAny(Lower(userInput), BookWords)
    ensures r == RecommendDoctor <==>
      !ContainsAny(Lower(userInput), BookWords) && ContainsAny(Lower(userInput), RecommendWords)
    ensures r == GeneralQuery <==>
      !ContainsAny(Lower(userInput), BookWords) && !ContainsAny(Lower(userInput), RecommendWords)
  {
    var text := Lower(userInput);
    if ContainsAny(text, BookWords) then BookAppointment
    else if ContainsAny(text, RecommendWords) then RecommendDoctor
    else GeneralQuery
  }

  /** The classification ignores case. */
  lemma IntentIgnoresCase(userInput: string)
    ensures IntentOf(Lower(userInput)) == IntentOf(userInput)
  {
    LowerIdempotent(userInput);
  }

  /**
   * Once a fragment of a message mentions a booking word, the message is a booking request
   * whatever surrounds the fragment, recommendation words included.
   */
  lemma BookingWordWins(pre: string, fragment: string, post: string, k: int)
    requires 0 <= k < |BookWords| && Contains(Lower(fragment), BookWords[k])
    ensures IntentOf(pre + fragment + post) == BookAppointment
  {
    ContainsInContext(pre, fragment, post, BookWords[k]);
  }

  /** `state["intent"] = intent`: the intent key holds the new value and no other key changes. */
  function WithIntent(state: State, intent: string): (r: State)
    ensures r.Keys == state.Keys + {"intent"}
    ensures r["intent"] == intent
    ensures forall key :: key in state && key != "intent" ==> r[key] == state[key]
  {
    state["intent" := intent]
  }

  /** The classifier node: the state with its intent set from the user's message. */
  function Classify(state: State): (r: State)
    ensures r.Keys == state.Keys + {"intent"}
    ensures r["intent"] == IntentOf(UserInput(state))
    ensures forall key :: key in state && key != "intent" ==> r[key] == state[key]
  {
    WithIntent(state, IntentOf(UserInput(state)))
  }
}
