/**
 * The table classifier of the activity scraper: a strict first-match-wins
 * rule that gives the "Max Efficiency:" marker in any row priority over the
 * header text.
 */
module Classify {
  import opened Wrappers
  import opened Text
  import opened Html

  datatype TableKind = ActivityInfo | ExperienceInfo | Drops | SpecialDrops

  const MaxEfficiencyMarker := "Max Efficiency:"

  /** Early-exit search over the rows for the case-sensitive marker. */
  function AnyRowHasMaxEfficiency(rows: seq<Row>): (found: bool)
    ensures found <==> exists i :: 0 <= i < |rows| && Contains(RowText(rows[i]), MaxEfficiencyMarker)
  {
    if rows == [] then false
    else if Contains(RowText(rows[0]), MaxEfficiencyMarker) then true
    else
      var rest := AnyRowHasMaxEfficiency(rows[1..]);
      assert forall i :: 1 <= i < |rows| ==> rows[i] == rows[1..][i - 1];
      rest
  }

  predicate HasMaxEfficiency(t: Table) {
    AnyRowHasMaxEfficiency(t.rows)
  }

  /** The headers joined with single spaces and lower-cased. */
  function HeaderText(headers: seq<string>): string {
    ToLower(JoinSpace(headers))
  }

  predicate IsExperience(text: string) {
    Contains(text, "skill(s)") && Contains(text, "baseexp")
  }

  predicate IsSpecialDrops(text: string) {
    Contains(text, "type")
  }

  predicate IsDrops(text: string) {
    Contains(text, "item") && Contains(text, "quantity")
  }

  /**
   * The kind of a table, or None when it matches no rule. The rules are tried
   * in order and the first that holds decides.
   */
  function TableType(headers: seq<string>, t: Table): (kind: Option<TableKind>)
    ensures kind == Some(ActivityInfo) <==> HasMaxEfficiency(t)
    ensures kind == Some(ExperienceInfo) <==>
              !HasMaxEfficiency(t) && IsExperience(HeaderText(headers))
    ensures kind == Some(SpecialDrops) <==>
              !HasMaxEfficiency(t) && !IsExperience(HeaderText(headers))
              && IsSpecialDrops(HeaderText(headers))
    ensures kind == Some(Drops) <==>
              !HasMaxEfficiency(t) && !IsExperience(HeaderText(headers))
              && !IsSpecialDrops(HeaderText(headers)) && IsDrops(HeaderText(headers))
    ensures kind == None <==>
              !HasMaxEfficiency(t) && !IsExperience(HeaderText(headers))
              && !IsSpecialDrops(HeaderText(headers)) && !IsDrops(HeaderText(headers))
  {
    if HasMaxEfficiency(t) then Some(ActivityInfo)
    else
      var text := HeaderText(headers);
      if IsExperience(text) then Some(ExperienceInfo)
      else if IsSpecialDrops(text) then Some(SpecialDrops)
      else if IsDrops(text) then Some(Drops)
      else None
  }

  /** The header rules ignore letter case: lower-casing every header first changes nothing. */
  lemma {:induction false} TableTypeIgnoresHeaderCase(headers: seq<string>, t: Table)
    ensures TableType(LowerAll(headers), t) == TableType(headers, t)
  {
    ToLowerJoin(headers);
    ToLowerIdempotent(JoinSpace(headers));
    assert HeaderText(LowerAll(headers)) == ToLower(JoinSpace(LowerAll(headers)));
    ToLowerJoin(LowerAll(headers));
    LowerAllIdempotent(headers);
  }

  lemma LowerAllIdempotent(headers: seq<string>)
    ensures LowerAll(LowerAll(headers)) == LowerAll(headers)
  {
    forall i | 0 <= i < |headers| ensures ToLower(ToLower(headers[i])) == ToLower(headers[i]) {
      ToLowerIdempotent(headers[i]);
    }
  }
}
