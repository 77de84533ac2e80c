/** Header alias resolution (`standardize_columns`): partner-specific column
    names are renamed to canonical ones using an alias table, in place on
    the frame's column labels. */
module HeaderAliases {
  import opened Common

  /** Canonical name and its accepted variants, both in the order the store
      returned them (Python dicts and lists keep insertion order). */
  type AliasEntry = (string, seq<string>)
  type AliasTable = seq<AliasEntry>

  /** `df.rename(columns={from: to})`: every column labelled `from`. */
  function RenameAll(cols: seq<string>, from: string, to: string): (r: seq<string>)
    ensures |r| == |cols|
  {
    seq(|cols|, p requires 0 <= p < |cols| => if cols[p] == from then to else cols[p])
  }

  /** The first variant, in list order, present among the columns. */
  function FirstPresent(variants: seq<string>, cols: seq<string>): (r: Option<nat>)
    ensures r.Some? ==> r.value < |variants| && variants[r.value] in cols
    ensures r.Some? ==> forall j :: 0 <= j < r.value ==> variants[j] !in cols
    ensures r.None? <==> forall j :: 0 <= j < |variants| ==> variants[j] !in cols
  {
    FirstIndex(variants, v => v in cols)
  }

  /** One entry of the table: the first variant present among the columns
      is renamed to the canonical name, wherever it occurs; no other label
      changes, and without a present variant nothing changes. */
  function ApplyAlias(entry: AliasEntry, cols: seq<string>): (r: seq<string>)
    ensures |r| == |cols|
    ensures FirstPresent(entry.1, cols).None? ==> r == cols
    ensures FirstPresent(entry.1, cols).Some? ==>
      var v := entry.1[FirstPresent(entry.1, cols).value];
      forall p :: 0 <= p < |cols| ==> r[p] == (if cols[p] == v then entry.0 else cols[p])
  {
    match FirstPresent(entry.1, cols)
    case None => cols
    case Some(i) => RenameAll(cols, entry.1[i], entry.0)
  }

  /** The entries from position `k` on, applied in table order. */
  function StandardizeFrom(table: AliasTable, k: nat, cols: seq<string>): (r: seq<string>)
    requires k <= |table|
    ensures |r| == |cols|
    decreases |table| - k
  {
    if k == |table| then cols
    else StandardizeFrom(table, k + 1, ApplyAlias(table[k], cols))
  }

  /** The column labels after `standardize_columns`. */
  function Standardize(table: AliasTable, cols: seq<string>): (r: seq<string>)
    ensures |r| == |cols|
  {
    StandardizeFrom(table, 0, cols)
  }

  /** `df.rename(columns={from: to}, inplace=True)` on the label array. */
  method RenameColumn(cols: array<string>, from: string, to: string)
    modifies cols
    ensures cols[..] == RenameAll(old(cols[..]), from, to)
  {
    var p := 0;
    while p < cols.Length
      invariant 0 <= p <= cols.Length
      invariant forall q :: 0 <= q < p ==> cols[q] == (if old(cols[q]) == from then to else old(cols[q]))
      invariant forall q :: p <= q < cols.Length ==> cols[q] == old(cols[q])
    {
      if cols[p] == from {
        cols[p] := to;
      }
      p := p + 1;
    }
  }

  /** One pass of the outer loop of `standardize_columns`: scan the variants
      and rename the first one present, then stop (`break`). */
  method ApplyAliasInPlace(entry: AliasEntry, cols: array<string>)
    modifies cols
    ensures cols[..] == ApplyAlias(entry, old(cols[..]))
  {
    var name, variants := entry.0, entry.1;
    var j := 0;
    while j < |variants|
      invariant 0 <= j <= |variants|
      invariant cols[..] == old(cols[..])
      invariant forall i :: 0 <= i < j ==> variants[i] !in old(cols[..])
    {
      if variants[j] in cols[..] {
        assert FirstPresent(variants, old(cols[..])) == Some(j);
        RenameColumn(cols, variants[j], name);
        return;
      }
      j := j + 1;
    }
  }

  /** `standardize_columns`: the alias entries in table order. */
  method StandardizeColumns(table: AliasTable, cols: array<string>)
    modifies cols
    ensures cols[..] == Standardize(table, old(cols[..]))
  {
    var k := 0;
    while k < |table|
      invariant 0 <= k <= |table|
      invariant StandardizeFrom(table, k, cols[..]) == Standardize(table, old(cols[..]))
    {
      ApplyAliasInPlace(table[k], cols);
      k := k + 1;
    }
  }

  predicate IsVariant(table: AliasTable, name: string)
  {
    exists k, j :: 0 <= k < |table| && 0 <= j < |table[k].1| && table[k].1[j] == name
  }

  /** A column whose label is no variant of any entry keeps its label. */
  lemma {:induction false} NonVariantKeepsName(table: AliasTable, k: nat, cols: seq<string>, p: nat)
    requires k <= |table| && p < |cols|
    requires !IsVariant(table, cols[p])
    ensures StandardizeFrom(table, k, cols)[p] == cols[p]
    decreases |table| - k
  {
    if k < |table| {
      var next := ApplyAlias(table[k], cols);
      assert next[p] == cols[p];
      NonVariantKeepsName(table, k + 1, next, p);
    }
  }

  /** Every label after standardizing is the original one or a canonical name. */
  lemma {:induction false} LabelOriginalOrCanonical(table: AliasTable, k: nat, cols: seq<string>, p: nat)
    requires k <= |table| && p < |cols|
    ensures var r := StandardizeFrom(table, k, cols);
      r[p] == cols[p] || exists m :: k <= m < |table| && r[p] == table[m].0
    decreases |table| - k
  {
    if k < |table| {
      var next := ApplyAlias(table[k], cols);
      LabelOriginalOrCanonical(table, k + 1, next, p);
    }
  }

  /** Columns that are none of the table's variants are left as they are. */
  lemma NoVariantNoChange(table: AliasTable, cols: seq<string>)
    requires forall p :: 0 <= p < |cols| ==> !IsVariant(table, cols[p])
    ensures Standardize(table, cols) == cols
  {
    forall p | 0 <= p < |cols|
      ensures Standardize(table, cols)[p] == cols[p]
    {
      NonVariantKeepsName(table, 0, cols, p);
    }
  }

  /** Renaming is not idempotent: when two variants of one name are both
      present, a second pass renames the one the first pass left. */
  lemma StandardizeNotIdempotent()
    ensures var table := [("sku", ["item", "code"])];
      Standardize(table, ["item", "code"]) == ["sku", "code"] &&
      Standardize(table, Standardize(table, ["item", "code"])) == ["sku", "sku"]
  {
    var table := [("sku", ["item", "code"])];
    var once := ApplyAlias(table[0], ["item", "code"]);
    assert "item" in ["item", "code"];
    assert once == ["sku", "code"];
    assert "item" !in once;
    assert "code" in once;
    var twice := ApplyAlias(table[0], once);
    assert twice == ["sku", "sku"];
  }
}
