/**
 * The conversation graph of backend/graph.py as data: its entry node, the routing function
 * applied after intent classification, the table from route labels to handler nodes, and the
 * edges from every handler to the end.
 */
module Graph {
  import opened Wrappers
  import opened Text
  import Intent
  import Nodes

  const GetInfo := "get_info"
  const BookAppointment := "book_appointment"
  const GetRecommendation := "get_recommendation"
  const General := "general"

  /** The labels `route_intent` passes through unchanged. */
  const RouteLabels: seq<string> := [GetInfo, BookAppointment, GetRecommendation]

  const Entry := "classify_intent"
  /** LangGraph's `END`. */
  const End := "__end__"

  /** The conditional edges out of the classifier. */
  const Routes: map<string, string> :=
    map[GetInfo := "info", BookAppointment := "booking", GetRecommendation := "recommendation",
        General := "general_chat"]

  /** The nodes with an edge to the end. */
  const EndNodes: seq<string> := ["info", "booking", "recommendation", "general_chat"]

  /**
   * `route_intent`: the lowercased intent when it is one of the three labels, and "general"
   * for anything else, a missing intent included.
   */
  function RouteIntent(intent: Option<string>): (r: string)
    ensures r in Routes
    ensures Lower(intent.GetOr("")) in RouteLabels ==> r == Lower(intent.GetOr(""))
    ensures Lower(intent.GetOr("")) !in RouteLabels ==> r == General
  {
    var i := Lower(intent.GetOr(""));
    if i in RouteLabels then i else General
  }

  /** Routing ignores case. */
  lemma RouteIgnoresCase(s: string)
    ensures RouteIntent(Some(Lower(s))) == RouteIntent(Some(s))
  {
    LowerIdempotent(s);
  }

  /** A state without an intent goes to the general chat. */
  lemma MissingIntentIsGeneral()
    ensures RouteIntent(None) == General
    ensures Routes[RouteIntent(None)] == "general_chat"
  {
    assert Lower("") == "";
  }

  /** Distinct route labels lead to distinct handlers, and every handler is reachable. */
  lemma RoutesOneToOne()
    ensures forall a, b :: a in Routes && b in Routes && Routes[a] == Routes[b] ==> a == b
    ensures forall k :: 0 <= k < |EndNodes| ==> EndNodes[k] in Routes.Values
    ensures forall n :: n in Routes.Values ==> n in EndNodes
  {
    assert Routes[GetInfo] == "info" && Routes[BookAppointment] == "booking";
    assert Routes[GetRecommendation] == "recommendation" && Routes[General] == "general_chat";
  }

  /** The nodes one run visits: the classifier, the routed handler, the end. */
  function Run(intent: Option<string>): (path: seq<string>)
    ensures |path| == 3 && path[0] == Entry && path[2] == End
    ensures path[1] in EndNodes
    ensures path[1] == Routes[RouteIntent(intent)]
  {
    RoutesOneToOne();
    [Entry, Routes[RouteIntent(intent)], End]
  }

  /** An intent stored by `classify_intent` is routed to itself when it is a label, else to "general". */
  lemma ClassifiedIntentRoutes(output: string)
    ensures var intent := Nodes.NormalizeIntent(output);
      RouteIntent(Some(intent)) == if intent in RouteLabels then intent else General
  {
    var intent := Nodes.NormalizeIntent(output);
    var stripped := Strip(output);
    LowerIdempotent(stripped);
    assert Lower(intent) == intent;
  }

  /**
   * Of the labels of the keyword classifier (`IntentClassifier`, backend/Nodes/intent.py) only
   * "book_appointment" is a route label: its "recommend_doctor" and "general_query" both fall
   * through to the general chat. The graph itself classifies with `classify_intent` of
   * backend/nodes.py and never calls the keyword classifier; this states what routing would do
   * with that classifier's output if it were wired in.
   */
  lemma KeywordLabelsRoute()
    ensures Routes[RouteIntent(Some(Intent.BookAppointment))] == "booking"
    ensures RouteIntent(Some(Intent.RecommendDoctor)) == General
    ensures RouteIntent(Some(Intent.GeneralQuery)) == General
  {
    var b := Lower(Intent.BookAppointment);
    assert b[0] == 'b' && b[1] == 'o' && b[2] == 'o' && b[3] == 'k' && b[4] == '_' && b[5] == 'a';
    assert b[6] == 'p' && b[7] == 'p' && b[8] == 'o' && b[9] == 'i' && b[10] == 'n' && b[11] == 't';
    assert b[12] == 'm' && b[13] == 'e' && b[14] == 'n' && b[15] == 't';
    assert b == BookAppointment;
    assert Lower(Intent.RecommendDoctor)[0] == 'r';
  }
}
