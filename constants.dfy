/** The fixed category enumeration and its human-readable labels (lib/constants.ts). */
module Constants {

  const Other: string := "other"

  /** `CATEGORIES`, in declaration order. */
  const Categories: seq<string> :=
    ["hiring", "craft", "org_design", "leadership", "culture",
     "strategy", "career_growth", "critique", "process", "other"]

  /** The `Category` type: one of the keys listed in `Categories`. */
  type Category = k: string | k in Categories witness "other"

  /** `CATEGORY_LABELS`. */
  const CategoryLabels: map<string, string> :=
    map["hiring" := "Hiring", "craft" := "Craft", "org_design" := "Org Design",
        "leadership" := "Leadership", "culture" := "Culture", "strategy" := "Strategy",
        "career_growth" := "Career Growth", "critique" := "Critique",
        "process" := "Process", "other" := "Other"]

  /** There are ten categories, no key listed twice, and "other" is one of them. */
  lemma CategoriesShape()
    ensures |Categories| == 10
    ensures forall i, j :: 0 <= i < j < |Categories| ==> Categories[i] != Categories[j]
    ensures Other in Categories && Categories[9] == Other
  {
  }

  /** Every category has a non-empty label, and only categories have one. */
  lemma LabelsTotal()
    ensures CategoryLabels.Keys == set k | k in Categories
    ensures forall k :: k in CategoryLabels ==> CategoryLabels[k] != ""
  {
  }

  /** Neither a category key nor a label holds a line feed. */
  lemma LabelsNoLineFeed()
    ensures forall i :: 0 <= i < |Categories| ==> '\n' !in Categories[i] && Categories[i] in CategoryLabels
    ensures forall k :: k in CategoryLabels ==> '\n' !in CategoryLabels[k]
  {
  }
}
