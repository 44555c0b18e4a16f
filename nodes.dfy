/**
 * The two decision steps of backend/nodes.py that do not involve the language model: the
 * doctor list filter of `info_node` and the normalisation `classify_intent` applies to the
 * model's answer before storing it as the intent.
 */
module Nodes {
  import opened Wrappers
  import opened Text
  import Seqs
  import Intent
  import Tools

  /** A doctor entry as `info_node` reads it. */
  datatype InfoDoctor = InfoDoctor(name: string, specialty: string)

  function SpecialtyIs(specialty: string): InfoDoctor -> bool {
    (d: InfoDoctor) => Lower(d.specialty) == Lower(specialty)
  }

  function NameIs(name: string): InfoDoctor -> bool {
    (d: InfoDoctor) => Lower(d.name) == Lower(name)
  }

  /**
   * The list stored in `state["response"]`: with a specialty, the doctors whose specialty equals
   * it ignoring case; otherwise, with a name, those whose name equals it ignoring case;
   * otherwise every doctor. In each case an order-preserving selection from the input that
   * keeps every matching entry as often as it occurs.
   */
  function InfoNode(doctors: seq<InfoDoctor>, name: Option<string>, specialty: Option<string>)
    : (filtered: seq<InfoDoctor>)
    ensures Seqs.IsSubseq(filtered, doctors)
    ensures !Falsy(specialty) ==>
      forall d :: d in filtered <==> d in doctors && Lower(d.specialty) == Lower(specialty.value)
    ensures Falsy(specialty) && !Falsy(name) ==>
      forall d :: d in filtered <==> d in doctors && Lower(d.name) == Lower(name.value)
    ensures Falsy(specialty) && Falsy(name) ==> filtered == doctors
    ensures !Falsy(specialty) ==>
      forall d :: multiset(filtered)[d] == (if Lower(d.specialty) == Lower(specialty.value) then multiset(doctors)[d] else 0)
    ensures Falsy(specialty) && !Falsy(name) ==>
      forall d :: multiset(filtered)[d] == (if Lower(d.name) == Lower(name.value) then multiset(doctors)[d] else 0)
  {
    if !Falsy(specialty) then
      var p := SpecialtyIs(specialty.value);
      Seqs.FilterIsSubseq(doctors, p);
      Seqs.FilterMembers(doctors, p);
      Seqs.FilterCounts(doctors, p);
      Seqs.Filter(doctors, p)
    else if !Falsy(name) then
      var p := NameIs(name.value);
      Seqs.FilterIsSubseq(doctors, p);
      Seqs.FilterMembers(doctors, p);
      Seqs.FilterCounts(doctors, p);
      Seqs.Filter(doctors, p)
    else
      Seqs.SubseqReflexive(doctors);
      doctors
  }

  /** What `info_node` as written leaves in `state["response"]`, or the TypeError it raises. */
  datatype InfoOutcome = StoredDict(info: Tools.DoctorInfo) | TypeError

  /**
   * `info_node` as written. `get_doctor_info()` returns the dict `{"doctors": rows}`, and a
   * comprehension over a dict runs over its keys, so the first element is the string "doctors";
   * subscripting it with "specialty" or "name" raises TypeError. Without a filter the dict
   * itself is stored.
   */
  function InfoNodeAsWritten(info: Tools.DoctorInfo, name: Option<string>, specialty: Option<string>)
    : (outcome: InfoOutcome)
    ensures outcome.TypeError? <==> !Falsy(specialty) || !Falsy(name)
    ensures outcome.StoredDict? ==> outcome.info == info
  {
    if !Falsy(specialty) || !Falsy(name) then TypeError else StoredDict(info)
  }

  /**
   * A request for cardiologists, with one cardiologist on record: as written it raises
   * TypeError, while the intended filter returns that doctor.
   */
  lemma SpecialtyRequestRaises()
    ensures var row := Tools.ToolDoctor("Dr. Khan", "Cardiology", None);
      InfoNodeAsWritten(Tools.DoctorInfo([row]), None, Some("cardiology")) == TypeError
    ensures var heart := InfoDoctor("Dr. Khan", "Cardiology");
      InfoNode([heart], None, Some("cardiology")) == [heart]
  {
    var heart := InfoDoctor("Dr. Khan", "Cardiology");
    assert Lower("Cardiology") == Lower("cardiology") by {
      assert Lower("Cardiology") == "cardiology";
      assert Lower("cardiology") == "cardiology";
    }
  }

  /** A specialty, when given, is the only criterion: the name makes no difference. */
  lemma SpecialtyIgnoresName(doctors: seq<InfoDoctor>, name1: Option<string>, name2: Option<string>,
                             specialty: Option<string>)
    requires !Falsy(specialty)
    ensures InfoNode(doctors, name1, specialty) == InfoNode(doctors, name2, specialty)
  {
  }

  /** `response.content.strip().lower()`: the model's answer without surrounding whitespace, lowered. */
  function NormalizeIntent(output: string): (intent: string)
    ensures LoweredWindowOf(intent, output)
    ensures intent != [] ==> !IsSpace(intent[0]) && !IsSpace(intent[|intent| - 1])
    ensures forall k :: 0 <= k < |intent| ==> !('A' <= intent[k] <= 'Z')
  {
    NormalizedShape(output);
    Lower(Strip(output))
  }

  /** `t` is the lowered slice of `s` left after removing a run of whitespace at each end. */
  ghost predicate LoweredWindowOf(t: string, s: string) {
    exists i, j :: 0 <= i <= j <= |s| && t == Lower(s[i..j])
                   && (forall k :: 0 <= k < i ==> IsSpace(s[k]))
                   && (forall k :: j <= k < |s| ==> IsSpace(s[k]))
  }

  /** The facts `NormalizeIntent` promises, about the lowered `strip()` of `s`. */
  lemma NormalizedShape(s: string)
    ensures LoweredWindowOf(Lower(Strip(s)), s)
    ensures Lower(Strip(s)) != [] ==> !IsSpace(Lower(Strip(s))[0]) && !IsSpace(Lower(Strip(s))[|Strip(s)| - 1])
    ensures forall k :: 0 <= k < |Strip(s)| ==> !('A' <= Lower(Strip(s))[k] <= 'Z')
  {
    var stripped := Strip(s);
    LowerKeepsEdges(stripped);
    LowerHasNoUpper(stripped);
    var i, j :| 0 <= i <= j <= |s| && stripped == s[i..j]
                && (forall k :: 0 <= k < i ==> IsSpace(s[k]))
                && (forall k :: j <= k < |s| ==> IsSpace(s[k]));
  }

  /** Normalising an already normalised intent changes nothing. */
  lemma NormalizeIntentIdempotent(output: string)
    ensures NormalizeIntent(NormalizeIntent(output)) == NormalizeIntent(output)
  {
    var once := NormalizeIntent(output);
    StripTrimmed(once);
    LowerIdempotent(Strip(output));
  }

  /** `classify_intent` after the model has answered `output`: only the intent key changes. */
  function ClassifyIntent(state: Intent.State, output: string): (r: Intent.State)
    ensures r.Keys == state.Keys + {"intent"}
    ensures r["intent"] == NormalizeIntent(output)
    ensures forall key :: key in state && key != "intent" ==> r[key] == state[key]
  {
    Intent.WithIntent(state, NormalizeIntent(output))
  }
}
