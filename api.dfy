/** The symptom keyword matcher `recommend_doctor` of api.py. */
module Api {
  import opened Text

  const Cardiologist := "You should consult a cardiologist."
  const GeneralPhysician := "You should see a general physician."
  const DescribeMore := "Please describe your symptoms in more detail."

  /** "heart" in any case decides first; then "fever" or "cold"; otherwise more detail is asked for. */
  function RecommendDoctor(symptoms: string): (advice: string)
    ensures advice == Cardiologist || advice == GeneralPhysician || advice == DescribeMore
    ensures advice == Cardiologist <==> Contains(Lower(symptoms), "heart")
    ensures advice == GeneralPhysician <==>
      !Contains(Lower(symptoms), "heart")
      && (Contains(Lower(symptoms), "fever") || Contains(Lower(symptoms), "cold"))
  {
    var text := Lower(symptoms);
    if Contains(text, "heart") then Cardiologist
    else if Contains(text, "fever") || Contains(text, "cold") then GeneralPhysician
    else DescribeMore
  }

  /** The advice ignores case. */
  lemma AdviceIgnoresCase(symptoms: string)
    ensures RecommendDoctor(Lower(symptoms)) == RecommendDoctor(symptoms)
  {
    LowerIdempotent(symptoms);
  }

  /** A mention of the heart anywhere outweighs any mention of fever or cold around it. */
  lemma HeartOutweighs(pre: string, fragment: string, post: string)
    requires Contains(Lower(fragment), "heart")
    ensures RecommendDoctor(pre + fragment + post) == Cardiologist
  {
    ContainsInContext(pre, fragment, post, "heart");
  }
}
