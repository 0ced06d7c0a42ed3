/**
 * The helpers of the lead table: the priority colour of a score, the score
 * shown for a lead without one, the status badge and the rows of the table.
 */
module LeadsTable {
  import opened Wrappers
  import opened Strings
  import opened Types

  /** The three colours of `getPriorityColor`. */
  datatype Tier = Violet | Blue | Gray

  function TierClass(t: Tier): string {
    match t
    case Violet => "text-violet-600"
    case Blue => "text-blue-600"
    case Gray => "text-gray-400"
  }

  /** `getPriorityColor`: 80 and above is violet, 50 up to 79 blue, the rest grey. */
  function PriorityTier(score: int): (t: Tier)
    ensures t == Violet <==> score >= 80
    ensures t == Blue <==> 50 <= score < 80
    ensures t == Gray <==> score < 50
  {
    if score >= 80 then Violet else if score >= 50 then Blue else Gray
  }

  function PriorityColor(score: int): string {
    TierClass(PriorityTier(score))
  }

  function Rank(t: Tier): int {
    match t
    case Gray => 0
    case Blue => 1
    case Violet => 2
  }

  /** A higher score never gets a lower tier. */
  lemma TierMonotone(a: int, b: int)
    requires a <= b
    ensures Rank(PriorityTier(a)) <= Rank(PriorityTier(b))
  {
  }

  /** `lead.score || 0`: a missing score (or 0) counts as 0. */
  function EffectiveScore(score: Option<int>): (s: int)
    ensures score.None? ==> s == 0
    ensures score.Some? ==> s == score.value
  {
    score.GetOr(0)
  }

  /** The score cell's text, `{score || 0}%`. */
  function ScoreText(score: Option<int>): string {
    IntToString(EffectiveScore(score)) + "%"
  }

  /** A lead without a score is shown grey, with "0%". */
  lemma MissingScore()
    ensures PriorityTier(EffectiveScore(None)) == Gray
    ensures ScoreText(None) == "0%"
  {
  }

  /** A `case` label of the status switch: `status === label`, where an undefined label matches no string. */
  predicate CaseMatches(status: string, caseLabel: Option<string>) {
    caseLabel == Some(status)
  }

  /**
   * `getStatusBadge` as written: its case labels are read from the enum by
   * member name, and IN_PROCESS and NOT_FIT are not members, so they are
   * undefined. The IN_PROCESS case falls through to CONTACTED.
   */
  function StatusBadge(status: string): string {
    if CaseMatches(status, LeadStatusMember("QUALIFIED")) then "Calificado"
    else if CaseMatches(status, LeadStatusMember("IN_PROCESS"))
         || CaseMatches(status, LeadStatusMember("CONTACTED")) then "En proceso"
    else if CaseMatches(status, LeadStatusMember("NOT_FIT")) then "No apto"
    else "Pendiente"
  }

  /** What the badge shows for any status string; "No apto" is never shown. */
  lemma StatusBadgeCases(status: string)
    ensures StatusBadge(status) == (if status == "Calificado" then "Calificado"
                                    else if status == "Contactado" then "En proceso"
                                    else "Pendiente")
    ensures StatusBadge(status) != "No apto"
  {
    assert LeadStatusMember("IN_PROCESS") == None;
    assert LeadStatusMember("NOT_FIT") == None;
  }

  /** The badge of each enum value: for every state but Qualified and Contacted it reads "Pendiente". */
  lemma StatusBadgeOfEnum(s: LeadStatus)
    ensures StatusBadge(LeadStatusValue(s)) ==
      match s
      case Qualified => "Calificado"
      case Contacted => "En proceso"
      case _ => "Pendiente"
  {
    StatusBadgeCases(LeadStatusValue(s));
  }

  /** `lead.nombre.charAt(0)`: the empty string for an empty name. */
  function FirstChar(s: string): (r: string)
    ensures |r| == if s == [] then 0 else 1
    ensures s != [] ==> r[0] == s[0]
  {
    if s == [] then "" else [s[0]]
  }

  datatype Row = Row(initial: string, nombre: string, telefono: string, interes: string,
                     scoreClass: string, scoreText: string, badge: string)

  function RowOf(l: Lead): Row {
    Row(FirstChar(l.nombre), l.nombre, l.telefono, l.interes,
        PriorityColor(EffectiveScore(l.score)), ScoreText(l.score), StatusBadge(l.estado))
  }

  /** `leads.map(...)`: one row per lead, in the order given. */
  function Rows(leads: seq<Lead>): (rows: seq<Row>)
    ensures |rows| == |leads|
    ensures forall i :: 0 <= i < |leads| ==> rows[i] == RowOf(leads[i])
  {
    seq(|leads|, i requires 0 <= i < |leads| => RowOf(leads[i]))
  }
}
