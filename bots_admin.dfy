/** BotsAdmin: the admin action shared by the configuration screens. */
module BotsAdmin {
  import opened Records

  /** The table after the active flag of every row at a position in `selected` is flipped. */
  ghost function Toggled<D>(rows: seq<Row<D>>, selected: seq<nat>): (t: seq<Row<D>>)
  {
    seq(|rows|, i requires 0 <= i < |rows| => if i in selected then rows[i].(active := !rows[i].active) else rows[i])
  }

  /** Toggling changes only the active flag, and only of the selected rows. */
  lemma ToggledChangesOnlySelectedFlags<D>(rows: seq<Row<D>>, selected: seq<nat>)
    ensures |Toggled(rows, selected)| == |rows|
    ensures forall i :: 0 <= i < |rows| ==>
      var r := Toggled(rows, selected)[i];
      && r.pk == rows[i].pk && r.fields == rows[i].fields
      && (r.active <==> (if i in selected then !rows[i].active else rows[i].active))
  {
  }

  /** Running the action twice on the same selection restores the original flags. */
  lemma ToggledTwice<D>(rows: seq<Row<D>>, selected: seq<nat>)
    ensures Toggled(Toggled(rows, selected), selected) == rows
  {
  }

  /** BotsAdmin.activate: for every record of the queryset, given as distinct positions in the
      table, flip its active flag and save it. */
  method Activate<D>(table: array<Row<D>>, queryset: seq<nat>)
    requires forall n :: 0 <= n < |queryset| ==> queryset[n] < table.Length
    requires forall m, n :: 0 <= m < n < |queryset| ==> queryset[m] != queryset[n]
    modifies table
    ensures table[..] == Toggled(old(table[..]), queryset)
  {
    for n := 0 to |queryset|
      invariant table[..] == Toggled(old(table[..]), queryset[..n])
    {
      var q := queryset[n];
      assert q !in queryset[..n];
      table[q] := table[q].(active := !table[q].active);
      assert queryset[..n + 1] == queryset[..n] + [q];
    }
    assert queryset[..|queryset|] == queryset;
  }
}
