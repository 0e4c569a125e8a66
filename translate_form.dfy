/** MyTranslateAdminForm: the five-field combination of a translation must be unique. The
    database's own unique_together check misses rows whose partner fields are NULL, so the form
    looks the combination up itself, treating NULL as equal to NULL. */
module TranslateForm {
  import opened Records

  /** The cleaned data of a translate form. The partner fields refer to partners and may be
      absent (SQL NULL); the text fields are never absent. */
  datatype TranslateData = TranslateData(
    fromeditype: string, frommessagetype: string, alt: string,
    frompartner: Option<PartnerId>, topartner: Option<PartnerId>,
    tscript: string, toeditype: string, tomessagetype: string)

  /** The combination that must be unique. None equals None, as a filter on None means IS NULL. */
  datatype TranslateKey = TranslateKey(
    fromeditype: string, frommessagetype: string, alt: string,
    frompartner: Option<PartnerId>, topartner: Option<PartnerId>)

  function KeyOf(d: TranslateData): TranslateKey
  {
    TranslateKey(d.fromeditype, d.frommessagetype, d.alt, d.frompartner, d.topartner)
  }

  /** Row i is the first row of the table, in table order, whose key is k. */
  ghost predicate IsFirstMatch(table: seq<Row<TranslateData>>, k: TranslateKey, i: int)
  {
    && 0 <= i < |table|
    && KeyOf(table[i].fields) == k
    && forall j :: 0 <= j < i ==> KeyOf(table[j].fields) != k
  }

  /** Some row of the table has key k. */
  ghost predicate Exists(table: seq<Row<TranslateData>>, k: TranslateKey)
  {
    exists j :: 0 <= j < |table| && KeyOf(table[j].fields) == k
  }

  /** The position of the row that `blub[0]` reads: the first row of the filtered table, if any. */
  function FirstMatch(table: seq<Row<TranslateData>>, k: TranslateKey): (r: Option<nat>)
    ensures r.Some? ==> IsFirstMatch(table, k, r.value)
    ensures r.None? <==> !Exists(table, k)
  {
    if table == [] then None
    else if KeyOf(table[0].fields) == k then Some(0)
    else
      match FirstMatch(table[1..], k)
      case None => None
      case Some(i) => Some(i + 1)
  }

  /** MyTranslateAdminForm.clean. `pk` is the primary key of the record being edited, None when
      a new record is created; `table` holds the stored translations in the database's order. */
  function Clean(d: TranslateData, pk: Option<nat>, table: seq<Row<TranslateData>>): (r: Cleaned<TranslateData>)
    ensures r.Accepted? ==> r.data == d
    ensures r.Rejected? ==> r.violation == DuplicateTranslate
    ensures pk.None? ==> (r.Rejected? <==> Exists(table, KeyOf(d)))
    ensures !Exists(table, KeyOf(d)) ==> r.Accepted?
    ensures pk.Some? ==>
      (r.Accepted? <==> !Exists(table, KeyOf(d)) ||
                        exists i :: IsFirstMatch(table, KeyOf(d), i) && table[i].pk == pk.value)
  {
    match FirstMatch(table, KeyOf(d))
    case None => Accepted(d)
    case Some(i) =>
      if pk.None? || pk.value != table[i].pk then Rejected(DuplicateTranslate) else Accepted(d)
  }

  /** No two rows of the table share a key: the invariant the form keeps. */
  ghost predicate KeysUnique(table: seq<Row<TranslateData>>)
  {
    forall i, j :: 0 <= i < j < |table| ==> KeyOf(table[i].fields) != KeyOf(table[j].fields)
  }

  /** No two rows of the table share a primary key. */
  ghost predicate PksUnique(table: seq<Row<TranslateData>>)
  {
    forall i, j :: 0 <= i < j < |table| ==> table[i].pk != table[j].pk
  }

  /** The table after the row with primary key p is saved with the fields d. */
  ghost function Edited(table: seq<Row<TranslateData>>, p: nat, d: TranslateData): (t: seq<Row<TranslateData>>)
  {
    seq(|table|, i requires 0 <= i < |table| => if table[i].pk == p then table[i].(fields := d) else table[i])
  }

  /** While keys are unique, a translation is rejected exactly when its combination is held by
      a row other than itself: any row for a new record, a row with another key when editing. */
  lemma RejectsExactlyCollisions(d: TranslateData, pk: Option<nat>, table: seq<Row<TranslateData>>)
    requires KeysUnique(table)
    ensures Clean(d, pk, table).Rejected? <==>
      exists j :: 0 <= j < |table| && KeyOf(table[j].fields) == KeyOf(d) && (pk.None? || table[j].pk != pk.value)
  {
  }

  /** Saving an accepted new translation keeps the keys of the table unique. */
  lemma CreateKeepsKeysUnique(d: TranslateData, table: seq<Row<TranslateData>>, newPk: nat, active: bool)
    requires KeysUnique(table)
    requires Clean(d, None, table).Accepted?
    ensures KeysUnique(table + [Row(newPk, active, d)])
  {
  }

  /** Saving an accepted edit of the row with primary key p keeps the keys of the table unique. */
  lemma EditKeepsKeysUnique(d: TranslateData, p: nat, table: seq<Row<TranslateData>>)
    requires KeysUnique(table) && PksUnique(table)
    requires Clean(d, Some(p), table).Accepted?
    ensures KeysUnique(Edited(table, p, d))
  {
  }

  /** When the table already holds two rows with the same key, the verdict on an unchanged edit
      of one of them depends on which comes first in the database's order. */
  lemma OutcomeDependsOnOrderWhenKeysRepeat()
    ensures
      var d := TranslateData("edifact", "ORDERS", "", None, None, "orders2xml", "xml", "orders");
      var a := Row(1, true, d);
      var b := Row(2, true, d);
      Clean(d, Some(1), [a, b]).Accepted? && Clean(d, Some(1), [b, a]).Rejected?
  {
  }
}
