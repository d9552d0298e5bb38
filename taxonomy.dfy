/** The fixed taxonomy tables and the device label the rows carry. */
module Taxonomy {

  /** Disturbance classes, in the order the class pass tries them. */
  const ClassList: seq<string> :=
    ["Sub-Cycle Disturbance", "Sag", "Swell", "Fast Transient", "Out of Limits"]

  /** Subclass tokens per class, in the order the subclass pass tries them. */
  const SubClassTable: map<string, seq<string>> :=
    map["Fast Transient" := ["AbsThr", "DvThr"],
        "Sag" := ["ITIC", "SEMI F47"],
        "Swell" := ["ITIC"],
        "Out of Limits" := ["Low", "Reset"]]

  /** The declared severity scale.  No pass consults it: the severity pass accepts any `L0`..`L9`. */
  const SeverityList: seq<string> := ["L1", "L2", "L3", "L4", "L8"]

  /** Electrical-variable tokens, in the order the variable pass tries them. */
  const TargetVariables: seq<string> :=
    ["Vab", "Van", "Vbc", "Vbn", "Vca", "Vcn", "Vllavg", "Vag", "Vbg", "Vcg"]

  /** Device label per measurement directory. */
  const DirectorySummary: map<string, string> :=
    map["Substation feed to Non-UPS Load from Utility A" := "Non UPS load A",
        "Substation feed to Non-UPS Load from Utility B" := "Non UPS load B",
        "Substation feed to UPS1-A" := "UPS A input",
        "Substation Feed to UPS1-B" := "UPS B input",
        "UPS1-A Output" := "UPS A output",
        "UPS1-B Output" := "UPS B Output",
        "Utility B" := "Utility B"]

  /** The directory the batch processes. */
  const BaseDirectory: string := "Substation feed to Non-UPS Load from Utility A"

  /** The `device` value of every row. */
  function Device(): (d: string)
    ensures d == "Non UPS load A"
  {
    DirectorySummary[BaseDirectory]
  }
}
