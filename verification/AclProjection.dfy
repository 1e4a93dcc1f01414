/** Post-hoc enforcement of access policies on a materialised result
    (crates/ox-api/src/acl_enforcement.rs). */
module AclProjection {
  import opened Prelude

  datatype Action = Deny | Mask

  datatype Policy = Policy(isActive: bool, action: string, resourceType: string, resourceValue: Option<string>,
                           properties: Option<seq<string>>, maskPattern: Option<string>, priority: int)

  datatype Spec = Spec(action: Action, resourceType: string, resourceValue: Option<string>,
                       properties: Option<seq<string>>, maskPattern: Option<string>, priority: int)

  function FromDbString(s: string): Option<Action> {
    if s == "deny" then Some(Deny) else if s == "mask" then Some(Mask) else None
  }

  // Inactive policies and unknown actions are skipped.
  predicate Usable(p: Policy) { p.isActive && FromDbString(p.action).Some? }

  function SpecOf(p: Policy): Spec
    requires Usable(p)
  {
    Spec(FromDbString(p.action).value, p.resourceType, p.resourceValue, p.properties, p.maskPattern, p.priority)
  }

  function Snapshot(policies: seq<Policy>): seq<Spec> {
    if policies == [] then []
    else
      var before, p := Snapshot(policies[..|policies| - 1]), policies[|policies| - 1];
      if Usable(p) then before + [SpecOf(p)] else before
  }

  method SnapshotFromPolicies(policies: seq<Policy>) returns (specs: seq<Spec>)
    ensures specs == Snapshot(policies)
  {
    specs := [];
    for i := 0 to |policies|
      invariant specs == Snapshot(policies[..i])
    {
      var policy := policies[i];
      assert policies[..i + 1][..i] == policies[..i];
      if !policy.isActive {
        continue;
      }
      var action := FromDbString(policy.action);
      if action.None? {
        continue;
      }
      specs := specs + [Spec(action.value, policy.resourceType, policy.resourceValue, policy.properties,
                             policy.maskPattern, policy.priority)];
    }
    assert policies[..|policies|] == policies;
  }

  function CountUsable(policies: seq<Policy>): nat {
    if policies == [] then 0
    else CountUsable(policies[..|policies| - 1]) + if Usable(policies[|policies| - 1]) then 1 else 0
  }

  predicate Copies(spec: Spec, p: Policy) {
    && (spec.action == Deny <==> p.action == "deny") && (spec.action == Mask <==> p.action == "mask")
    && spec.resourceType == p.resourceType && spec.resourceValue == p.resourceValue
    && spec.properties == p.properties && spec.maskPattern == p.maskPattern && spec.priority == p.priority
  }

  /** Each usable policy stands in the snapshot where the usable policies before it leave off, so the
      snapshot holds exactly those, in their order. */
  lemma {:induction false} SnapshotPlaces(policies: seq<Policy>, i: nat)
    requires i < |policies|
    ensures |Snapshot(policies)| == CountUsable(policies)
    ensures Usable(policies[i]) ==>
      CountUsable(policies[..i]) < |Snapshot(policies)| &&
      Copies(Snapshot(policies)[CountUsable(policies[..i])], policies[i])
    decreases |policies|
  {
    var n := |policies| - 1;
    if i < n {
      SnapshotPlaces(policies[..n], i);
      assert policies[..n][..i] == policies[..i];
    } else if n > 0 {
      SnapshotPlaces(policies[..n], n - 1);
    }
  }

  // The store lists policies by descending priority.
  ghost predicate ByPriority(specs: seq<Spec>) {
    forall a, b :: 0 <= a < b < |specs| ==> specs[a].priority >= specs[b].priority
  }

  lemma {:induction false} SnapshotByPriority(policies: seq<Policy>, low: int)
    requires forall a, b :: 0 <= a < b < |policies| ==> policies[a].priority >= policies[b].priority
    requires forall a :: 0 <= a < |policies| ==> policies[a].priority >= low
    ensures ByPriority(Snapshot(policies)) && forall k :: 0 <= k < |Snapshot(policies)| ==>
      Snapshot(policies)[k].priority >= low
  {
    if policies != [] {
      SnapshotByPriority(policies[..|policies| - 1], policies[|policies| - 1].priority);
    }
  }

  // ------------------------------------------------------------------
  // What the policies mean for one column
  // ------------------------------------------------------------------

  datatype Effect = Remove | MaskWith(pattern: string) | Keep

  const DEFAULT_PATTERN := "***"

  predicate Lists(spec: Spec, action: Action, column: string) {
    spec.action == action && spec.properties.Some? && column in spec.properties.value
  }

  predicate Denied(specs: seq<Spec>, column: string) {
    exists k :: 0 <= k < |specs| && Lists(specs[k], Deny, column)
  }

  function Pattern(spec: Spec): string {
    if spec.maskPattern.Some? then spec.maskPattern.value else DEFAULT_PATTERN
  }

  // The pattern of the last mask policy listing the column.
  function LastMask(specs: seq<Spec>, column: string): Option<string> {
    if specs == [] then None
    else if Lists(specs[|specs| - 1], Mask, column) then Some(Pattern(specs[|specs| - 1]))
    else LastMask(specs[..|specs| - 1], column)
  }

  function EffectOn(specs: seq<Spec>, column: string): Effect {
    if Denied(specs, column) then Remove
    else match LastMask(specs, column) case Some(p) => MaskWith(p) case None => Keep
  }

  function Effects(specs: seq<Spec>, columns: seq<string>): seq<Effect> {
    seq(|columns|, i requires 0 <= i < |columns| => EffectOn(specs, columns[i]))
  }

  // ------------------------------------------------------------------
  // What the effects mean for one row, which may be shorter or longer than the columns
  // ------------------------------------------------------------------

  datatype Value = Str(text: string) | Other(id: nat)

  function Project(effects: seq<Effect>, row: seq<Value>): seq<Value> {
    if row == [] then []
    else if effects == [] then row
    else
      (match effects[0] case Remove => [] case MaskWith(p) => [Str(p)] case Keep => [row[0]]) +
        Project(effects[1..], row[1..])
  }

  // Removal alone, of columns or cells.
  function Cut<T>(effects: seq<Effect>, row: seq<T>): seq<T> {
    if row == [] then []
    else if effects == [] then row
    else (if effects[0].Remove? then [] else [row[0]]) + Cut(effects[1..], row[1..])
  }

  function MaskCell(effects: seq<Effect>, row: seq<Value>, i: nat): Value
    requires i < |row|
  {
    if i < |effects| && effects[i].MaskWith? then Str(effects[i].pattern) else row[i]
  }

  function Masked(effects: seq<Effect>, row: seq<Value>): seq<Value> {
    seq(|row|, i requires 0 <= i < |row| => MaskCell(effects, row, i))
  }

  lemma {:induction false} ProjectIsMaskThenCut(effects: seq<Effect>, row: seq<Value>)
    ensures Project(effects, row) == Cut(effects, Masked(effects, row))
  {
    if row == [] {
    } else if effects == [] {
      assert Masked(effects, row) == row;
    } else {
      ProjectIsMaskThenCut(effects[1..], row[1..]);
      assert Masked(effects, row)[1..] == Masked(effects[1..], row[1..]);
    }
  }

  // ------------------------------------------------------------------
  // The enforcement, in place
  // ------------------------------------------------------------------

  // The row once every removal at or after `from` has been made.
  function CutFrom<T>(effects: seq<Effect>, row: seq<T>, from: nat): seq<T>
    requires from <= |effects|
  {
    if from == 0 then Cut(effects, row)
    else if row == [] then []
    else [row[0]] + CutFrom(effects[1..], row[1..], from - 1)
  }

  lemma {:induction false} CutFromEnd<T>(effects: seq<Effect>, row: seq<T>)
    ensures CutFrom(effects, row, |effects|) == row
  {
    if effects != [] && row != [] {
      CutFromEnd(effects[1..], row[1..]);
    }
  }

  // With nothing to remove before `from`, that is every removal.
  lemma {:induction false} CutFromKept<T>(effects: seq<Effect>, row: seq<T>, from: nat)
    requires from <= |effects| && forall i :: 0 <= i < from ==> !effects[i].Remove?
    ensures CutFrom(effects, row, from) == Cut(effects, row)
  {
    if from > 0 && row != [] {
      CutFromKept(effects[1..], row[1..], from - 1);
    }
  }

  // The sequence without position i, if it has one.
  function Without<T>(s: seq<T>, i: nat): seq<T> {
    if s == [] then [] else if i == 0 then s[1..] else [s[0]] + Without(s[1..], i - 1)
  }

  lemma {:induction false} WithoutIsSplice<T>(s: seq<T>, i: nat)
    ensures Without(s, i) == if i < |s| then s[..i] + s[i + 1..] else s
  {
    if s != [] && i > 0 {
      WithoutIsSplice(s[1..], i - 1);
    }
  }

  lemma WithoutCons<T>(x: T, s: seq<T>, i: nat)
    ensures Without([x] + s, i) == if i == 0 then s else [x] + Without(s, i - 1)
  {
    assert ([x] + s)[1..] == s;
  }

  lemma {:induction false} CutFromLength<T>(effects: seq<Effect>, row: seq<T>, from: nat)
    requires from <= |effects|
    ensures from <= |row| ==> from <= |CutFrom(effects, row, from)|
  {
    if from > 0 && row != [] {
      CutFromLength(effects[1..], row[1..], from - 1);
    }
  }

  // Removing position idx, when nothing between it and `from` is removed, moves the frontier to idx.
  lemma {:induction false} RemoveStep<T>(effects: seq<Effect>, row: seq<T>, idx: nat, from: nat)
    requires idx < from <= |effects| && effects[idx].Remove? && forall i :: idx < i < from ==> !effects[i].Remove?
    ensures CutFrom(effects, row, idx) == Without(CutFrom(effects, row, from), idx)
  {
    if row != [] {
      WithoutCons(row[0], CutFrom(effects[1..], row[1..], from - 1), idx);
      if idx == 0 {
        CutFromKept(effects[1..], row[1..], from - 1);
      } else {
        RemoveStep(effects[1..], row[1..], idx - 1, from - 1);
      }
    }
  }

  class QueryResult {
    var columns: seq<string>
    var rows: seq<seq<Value>>

    constructor (columns: seq<string>, rows: seq<seq<Value>>)
      ensures this.columns == columns && this.rows == rows
    {
      this.columns, this.rows := columns, rows;
    }

    /** The result keeps the columns no policy denies, and each row its cells under them: masked
        cells replaced, all others as they were, in order, cells beyond the columns included. */
    method EnforceAcl(specs: seq<Spec>)
      modifies this
      ensures columns == Cut(Effects(specs, old(columns)), old(columns))
      ensures |rows| == |old(rows)| && forall r :: 0 <= r < |rows| ==>
        rows[r] == Project(Effects(specs, old(columns)), old(rows)[r])
    {
      var deny, mask := BuildFilters(specs);
      var effects := Effects(specs, columns);
      if deny == {} && mask == map[] {
        forall r | 0 <= r < |rows| ensures rows[r] == Project(effects, rows[r]) {
          AllKept(effects, rows[r]);
        }
        CutFromKept(effects, columns, |effects|);
        CutFromEnd(effects, columns);
        return;
      }
      var denyIndices, maskIndices := Classify(columns, specs, deny, mask);
      forall r | 0 <= r < |rows| ensures Project(effects, rows[r]) == Cut(effects, Masked(effects, rows[r])) {
        ProjectIsMaskThenCut(effects, rows[r]);
      }
      MaskCells(effects, maskIndices);
      RemoveColumns(effects, denyIndices);
    }

    method MaskCells(ghost effects: seq<Effect>, maskIndices: seq<(nat, string)>)
      requires forall i: nat, p :: (i, p) in maskIndices <==> i < |effects| && effects[i] == MaskWith(p)
      modifies this`rows
      ensures |rows| == |old(rows)| && forall r :: 0 <= r < |rows| ==> rows[r] == Masked(effects, old(rows)[r])
    {
      for r := 0 to |rows|
        invariant |rows| == |old(rows)|
        invariant forall q :: 0 <= q < r ==> rows[q] == Masked(effects, old(rows)[q])
        invariant forall q :: r <= q < |rows| ==> rows[q] == old(rows)[q]
      {
        var row := MaskRow(effects, maskIndices, rows[r]);
        rows := rows[r := row];
      }
    }

    // The indices arrive in ascending order and are removed from the last to the first.
    method RemoveColumns(ghost effects: seq<Effect>, denyIndices: seq<nat>)
      requires |effects| == |columns| && AscendingRemovals(effects, denyIndices)
      modifies this
      ensures columns == Cut(effects, old(columns))
      ensures |rows| == |old(rows)| && forall r :: 0 <= r < |rows| ==> rows[r] == Cut(effects, old(rows)[r])
    {
      var j: nat := |denyIndices|;
      ghost var from: nat := |effects|;
      CutFromEnd(effects, columns);
      forall r | 0 <= r < |rows| ensures CutFrom(effects, rows[r], from) == rows[r] {
        CutFromEnd(effects, rows[r]);
      }
      while j > 0
        invariant j <= |denyIndices| && from <= |effects| &&
          from == (if j == |denyIndices| then |effects| else denyIndices[j])
        invariant columns == CutFrom(effects, old(columns), from)
        invariant |rows| == |old(rows)| && forall r :: 0 <= r < |rows| ==>
          rows[r] == CutFrom(effects, old(rows)[r], from)
      {
        j := j - 1;
        var idx := denyIndices[j];
        assert forall i :: idx < i < from ==> !effects[i].Remove? by { NoneBetween(effects, denyIndices, j); }
        RemoveStep(effects, old(columns), idx, from);
        CutFromLength(effects, old(columns), from);
        WithoutIsSplice(columns, idx);
        columns := columns[..idx] + columns[idx + 1..];
        RemoveCells(effects, old(rows), idx, from);
        from := idx;
      }
      assert forall i :: 0 <= i < from ==> !effects[i].Remove? by { NoneBefore(effects, denyIndices); }
      CutFromKept(effects, old(columns), from);
      forall r | 0 <= r < |rows| ensures rows[r] == Cut(effects, old(rows)[r]) {
        CutFromKept(effects, old(rows)[r], from);
      }
    }

    method RemoveCells(ghost effects: seq<Effect>, ghost before: seq<seq<Value>>, idx: nat, ghost from: nat)
      requires idx < from <= |effects| && effects[idx].Remove? && forall i :: idx < i < from ==> !effects[i].Remove?
      requires |rows| == |before| && forall r :: 0 <= r < |rows| ==> rows[r] == CutFrom(effects, before[r], from)
      modifies this`rows
      ensures |rows| == |before| && forall r :: 0 <= r < |rows| ==> rows[r] == CutFrom(effects, before[r], idx)
    {
      for r := 0 to |rows|
        invariant |rows| == |before|
        invariant forall q :: 0 <= q < r ==> rows[q] == CutFrom(effects, before[q], idx)
        invariant forall q :: r <= q < |rows| ==> rows[q] == CutFrom(effects, before[q], from)
      {
        RemoveStep(effects, before[r], idx, from);
        WithoutIsSplice(rows[r], idx);
        if idx < |rows[r]| {
          rows := rows[r := rows[r][..idx] + rows[r][idx + 1..]];
        }
      }
    }
  }

  lemma AllKept(effects: seq<Effect>, row: seq<Value>)
    requires forall i :: 0 <= i < |effects| ==> effects[i].Keep?
    ensures Project(effects, row) == row
  {
    ProjectIsMaskThenCut(effects, row);
    assert Masked(effects, row) == row;
    CutFromKept(effects, row, |effects|);
    CutFromEnd(effects, row);
  }

  // The positions to remove, in ascending order.
  ghost predicate AscendingRemovals(effects: seq<Effect>, indices: seq<nat>) {
    && (forall a, b :: 0 <= a < b < |indices| ==> indices[a] < indices[b])
    && (forall a :: 0 <= a < |indices| ==> indices[a] < |effects| && effects[indices[a]].Remove?)
    && (forall i :: 0 <= i < |effects| && effects[i].Remove? ==> i in indices)
  }

  lemma NoneBetween(effects: seq<Effect>, indices: seq<nat>, j: nat)
    requires AscendingRemovals(effects, indices) && j < |indices|
    ensures forall i :: indices[j] < i < (if j + 1 < |indices| then indices[j + 1] else |effects|) ==>
      !effects[i].Remove?
    ensures indices[j] < if j + 1 < |indices| then indices[j + 1] else |effects|
  {
    assert forall a :: 0 <= a < |indices| ==> if a <= j then indices[a] <= indices[j] else indices[a] >= indices[j + 1];
  }

  lemma NoneBefore(effects: seq<Effect>, indices: seq<nat>)
    requires AscendingRemovals(effects, indices)
    ensures forall i :: 0 <= i < (if indices == [] then |effects| else indices[0]) ==> !effects[i].Remove?
  {
  }

  method MaskRow(ghost effects: seq<Effect>, maskIndices: seq<(nat, string)>, cells: seq<Value>)
    returns (row: seq<Value>)
    requires forall i: nat, p :: (i, p) in maskIndices <==> i < |effects| && effects[i] == MaskWith(p)
    ensures row == Masked(effects, cells)
  {
    row := cells;
    for k := 0 to |maskIndices|
      invariant |row| == |cells|
      invariant forall i :: 0 <= i < |cells| ==>
        row[i] == MaskCell(effects, cells, i) ||
          (row[i] == cells[i] && i < |effects| && effects[i].MaskWith? && (i, effects[i].pattern) in maskIndices[k..])
    {
      var (idx, pattern) := maskIndices[k];
      assert (idx, pattern) in maskIndices;
      if idx < |row| {
        row := row[idx := Str(pattern)];
      }
    }
  }

  method BuildFilters(specs: seq<Spec>) returns (deny: set<string>, mask: map<string, string>)
    ensures forall c :: c in deny <==> Denied(specs, c)
    ensures forall c :: c !in deny ==> (if c in mask then Some(mask[c]) else None) == LastMask(specs, c)
  {
    deny, mask := {}, map[];
    for i := 0 to |specs|
      invariant forall c :: c in deny <==> Denied(specs[..i], c)
      invariant forall c :: c !in deny ==> (if c in mask then Some(mask[c]) else None) == LastMask(specs[..i], c)
    {
      var spec := specs[i];
      ghost var deny0, mask0 := deny, mask;
      if spec.properties.Some? {
        var props := spec.properties.value;
        match spec.action {
          case Deny =>
            for k := 0 to |props|
              invariant deny == deny0 + set c | c in props[..k]
            {
              deny := deny + {props[k]};
            }
          case Mask =>
            for k := 0 to |props|
              invariant forall c :: c in props[..k] && c !in deny ==> c in mask && mask[c] == Pattern(spec)
              invariant forall c :: c !in props[..k] ==>
                (c in mask <==> c in mask0) && (c in mask ==> mask[c] == mask0[c])
            {
              if props[k] !in deny {
                mask := mask[props[k] := Pattern(spec)];
              }
            }
        }
      }
      FilterStep(specs, i);
    }
    assert specs[..|specs|] == specs;
  }

  lemma FilterStep(specs: seq<Spec>, i: nat)
    requires i < |specs|
    ensures forall c :: Denied(specs[..i + 1], c) <==> Denied(specs[..i], c) || Lists(specs[i], Deny, c)
    ensures forall c ::
      LastMask(specs[..i + 1], c) == if Lists(specs[i], Mask, c) then Some(Pattern(specs[i]))
        else LastMask(specs[..i], c)
  {
    assert specs[..i + 1][..i] == specs[..i];
    assert specs[..i + 1][i] == specs[i];
    forall c ensures Denied(specs[..i + 1], c) <==> Denied(specs[..i], c) || Lists(specs[i], Deny, c) {
      if Denied(specs[..i], c) {
        var k :| 0 <= k < i && Lists(specs[..i][k], Deny, c);
        assert Lists(specs[..i + 1][k], Deny, c);
      }
      if Denied(specs[..i + 1], c) {
        var k :| 0 <= k < i + 1 && Lists(specs[..i + 1][k], Deny, c);
        assert k < i ==> Lists(specs[..i][k], Deny, c);
      }
    }
  }

  method Classify(columns: seq<string>, ghost specs: seq<Spec>, deny: set<string>, mask: map<string, string>)
    returns (denyIndices: seq<nat>, maskIndices: seq<(nat, string)>)
    requires forall c :: c in deny <==> Denied(specs, c)
    requires forall c :: c !in deny ==> (if c in mask then Some(mask[c]) else None) == LastMask(specs, c)
    ensures AscendingRemovals(Effects(specs, columns), denyIndices)
    ensures forall i: nat, p :: (i, p) in maskIndices <==> i < |columns| && Effects(specs, columns)[i] == MaskWith(p)
  {
    ghost var effects := Effects(specs, columns);
    denyIndices, maskIndices := [], [];
    for idx := 0 to |columns|
      invariant forall a :: 0 <= a < |denyIndices| ==> denyIndices[a] < idx && effects[denyIndices[a]].Remove?
      invariant forall a, b :: 0 <= a < b < |denyIndices| ==> denyIndices[a] < denyIndices[b]
      invariant forall i :: 0 <= i < idx && effects[i].Remove? ==> i in denyIndices
      invariant forall i: nat, p :: (i, p) in maskIndices <==> i < idx && effects[i] == MaskWith(p)
    {
      var col := columns[idx];
      assert effects[idx] == EffectOn(specs, col);
      if col in deny {
        denyIndices := denyIndices + [idx];
      } else if col in mask {
        maskIndices := maskIndices + [(idx, mask[col])];
      }
    }
  }

  // ------------------------------------------------------------------
  // What the projection guarantees
  // ------------------------------------------------------------------

  // Removed positions before i.
  function RemovedBefore(effects: seq<Effect>, i: nat): nat {
    if i == 0 || effects == [] then 0 else (if effects[0].Remove? then 1 else 0) + RemovedBefore(effects[1..], i - 1)
  }

  /** A cell that is not removed lands as many places to the left as positions before it are
      removed, masked or unchanged. */
  lemma {:induction false} CellLandsAt(effects: seq<Effect>, row: seq<Value>, i: nat)
    requires i < |row| && !(i < |effects| && effects[i].Remove?)
    ensures RemovedBefore(effects, i) <= i && i - RemovedBefore(effects, i) < |Project(effects, row)|
    ensures Project(effects, row)[i - RemovedBefore(effects, i)] ==
      if i < |effects| && effects[i].MaskWith? then Str(effects[i].pattern) else row[i]
  {
    if effects != [] && i > 0 {
      CellLandsAt(effects[1..], row[1..], i - 1);
      assert MaskCell(effects, row, i) == MaskCell(effects[1..], row[1..], i - 1);
    }
  }

  /** And nothing else is in the row. */
  lemma {:induction false} ProjectLength(effects: seq<Effect>, row: seq<Value>)
    ensures |Project(effects, row)| == |row| - RemovedBefore(effects, |row|)
  {
    if effects != [] && row != [] {
      ProjectLength(effects[1..], row[1..]);
    }
  }

  // What enforcement lets an observer of one row see: everything but removed and masked cells.
  ghost predicate SameVisible(effects: seq<Effect>, a: seq<Value>, b: seq<Value>) {
    |a| == |b| && forall i :: 0 <= i < |a| && (i < |effects| ==> effects[i].Keep?) ==> a[i] == b[i]
  }

  /** Two rows of one length come out equal iff they agree on every cell that is neither denied nor
      masked: nothing else about a row can be told from the result. */
  lemma {:induction false} Noninterference(effects: seq<Effect>, a: seq<Value>, b: seq<Value>)
    requires |a| == |b|
    ensures Project(effects, a) == Project(effects, b) <==> SameVisible(effects, a, b)
  {
    if effects != [] && a != [] {
      Noninterference(effects[1..], a[1..], b[1..]);
      var pa, pb := Project(effects[1..], a[1..]), Project(effects[1..], b[1..]);
      VisibleTail(effects, a, b);
      if !effects[0].Remove? && Project(effects, a) == Project(effects, b) {
        assert Project(effects, a)[0] == Project(effects, b)[0];
        assert Project(effects, a)[1..] == pa && Project(effects, b)[1..] == pb;
      } else if effects[0].Remove? {
        assert Project(effects, a) == pa && Project(effects, b) == pb;
      }
    }
  }

  lemma VisibleTail(effects: seq<Effect>, a: seq<Value>, b: seq<Value>)
    requires |a| == |b| && effects != [] && a != []
    ensures SameVisible(effects, a, b) <==>
      (effects[0].Keep? ==> a[0] == b[0]) && SameVisible(effects[1..], a[1..], b[1..])
  {
    if SameVisible(effects[1..], a[1..], b[1..]) {
      forall i | 0 < i < |a| && (i < |effects| ==> effects[i].Keep?) ensures a[i] == b[i] {
        assert a[1..][i - 1] == b[1..][i - 1];
      }
    }
  }

  lemma {:induction false} EffectsCut(specs: seq<Spec>, columns: seq<string>)
    ensures Effects(specs, Cut(Effects(specs, columns), columns)) ==
      Cut(Effects(specs, columns), Effects(specs, columns))
  {
    if columns != [] {
      assert Effects(specs, columns)[1..] == Effects(specs, columns[1..]);
      EffectsCut(specs, columns[1..]);
    }
  }

  lemma {:induction false} ProjectTwice(effects: seq<Effect>, row: seq<Value>)
    ensures Project(Cut(effects, effects), Project(effects, row)) == Project(effects, row)
  {
    if effects != [] && row != [] {
      ProjectTwice(effects[1..], row[1..]);
      if !effects[0].Remove? {
        var once := Project(effects, row);
        assert once[1..] == Project(effects[1..], row[1..]);
        assert Cut(effects, effects)[1..] == Cut(effects[1..], effects[1..]);
      } else {
        assert Cut(effects, effects) == Cut(effects[1..], effects[1..]);
        assert Project(effects, row) == Project(effects[1..], row[1..]);
      }
    }
  }

  lemma {:induction false} NothingLeftToCut(effects: seq<Effect>, columns: seq<string>)
    requires |effects| == |columns|
    ensures Cut(Cut(effects, effects), Cut(effects, columns)) == Cut(effects, columns)
  {
    if effects != [] {
      NothingLeftToCut(effects[1..], columns[1..]);
      if !effects[0].Remove? {
        assert Cut(effects, columns)[1..] == Cut(effects[1..], columns[1..]);
        assert Cut(effects, effects)[1..] == Cut(effects[1..], effects[1..]);
      } else {
        assert Cut(effects, effects) == Cut(effects[1..], effects[1..]);
        assert Cut(effects, columns) == Cut(effects[1..], columns[1..]);
      }
    }
  }

  /** Enforcing the same policies on an enforced result changes nothing. */
  lemma EnforceIdempotent(specs: seq<Spec>, columns: seq<string>, row: seq<Value>)
    ensures var effects := Effects(specs, columns); var kept := Cut(effects, columns);
      Cut(Effects(specs, kept), kept) == kept &&
        Project(Effects(specs, kept), Project(effects, row)) == Project(effects, row)
  {
    EffectsCut(specs, columns);
    ProjectTwice(Effects(specs, columns), row);
    NothingLeftToCut(Effects(specs, columns), columns);
  }

  lemma {:induction false} LastMaskAcross(a: seq<Spec>, b: seq<Spec>, column: string)
    ensures LastMask(a + b, column) == if LastMask(b, column).Some? then LastMask(b, column) else LastMask(a, column)
  {
    if b == [] {
      assert a + b == a;
    } else {
      assert (a + b)[..|a + b| - 1] == a + b[..|b| - 1];
      LastMaskAcross(a, b[..|b| - 1], column);
    }
  }

  /** Where a deny policy stands in the list makes no difference to any column. */
  lemma DenyPlacement(a: seq<Spec>, d: Spec, b: seq<Spec>, column: string)
    requires d.action == Deny
    ensures EffectOn(a + [d] + b, column) == EffectOn([d] + a + b, column)
    ensures Lists(d, Deny, column) ==> EffectOn(a + [d] + b, column) == Remove
  {
    var s, t := a + [d] + b, [d] + a + b;
    LastMaskAcross(a + [d], b, column);
    LastMaskAcross(a, [d], column);
    LastMaskAcross([d] + a, b, column);
    LastMaskAcross([d], a, column);
    assert [d][..0] == [];
    assert s[|a|] == d && t[0] == d;
    forall k | 0 <= k < |s| ensures s[k] in t {
      assert s[k] == if k < |a| then t[k + 1] else if k == |a| then t[0] else t[k];
    }
    forall k | 0 <= k < |t| ensures t[k] in s {
      assert t[k] == if k == 0 then s[|a|] else if k <= |a| then s[k - 1] else s[k];
    }
    DeniedByMembership(s, t, column);
    DeniedByMembership(t, s, column);
  }

  lemma DeniedByMembership(s: seq<Spec>, t: seq<Spec>, column: string)
    requires forall k :: 0 <= k < |s| ==> s[k] in t
    ensures Denied(s, column) ==> Denied(t, column)
  {
    if Denied(s, column) {
      var k :| 0 <= k < |s| && Lists(s[k], Deny, column);
      var j :| 0 <= j < |t| && t[j] == s[k];
    }
  }

  // ------------------------------------------------------------------
  // From stored policies to columns
  // ------------------------------------------------------------------

  // An active policy with this stored action lists the column.
  predicate Orders(p: Policy, action: string, column: string) {
    p.isActive && p.action == action && p.properties.Some? && column in p.properties.value
  }

  ghost predicate Ordered(policies: seq<Policy>, action: string, column: string) {
    exists k :: 0 <= k < |policies| && Orders(policies[k], action, column)
  }

  ghost predicate LastOrder(policies: seq<Policy>, l: nat, action: string, column: string) {
    l < |policies| && Orders(policies[l], action, column) && forall k :: l < k < |policies| ==>
      !Orders(policies[k], action, column)
  }

  lemma OrderedStep(policies: seq<Policy>, action: string, column: string)
    requires policies != []
    ensures var n := |policies| - 1;
      Ordered(policies, action, column) <==>
        Ordered(policies[..n], action, column) || Orders(policies[n], action, column)
  {
    var n := |policies| - 1;
    if k :| 0 <= k < n && Orders(policies[..n][k], action, column) {
      assert Orders(policies[k], action, column);
    }
    if k :| 0 <= k < n && Orders(policies[k], action, column) {
      assert Orders(policies[..n][k], action, column);
    }
  }

  lemma DeniedLast(specs: seq<Spec>, last: Spec, column: string)
    ensures Denied(specs + [last], column) <==> Denied(specs, column) || Lists(last, Deny, column)
  {
    if k :| 0 <= k < |specs| && Lists(specs[k], Deny, column) {
      assert Lists((specs + [last])[k], Deny, column);
    }
    assert (specs + [last])[|specs|] == last;
  }

  lemma {:induction false} DeniedIffOrdered(policies: seq<Policy>, column: string)
    ensures Denied(Snapshot(policies), column) <==> Ordered(policies, "deny", column)
  {
    if policies != [] {
      var n := |policies| - 1;
      DeniedIffOrdered(policies[..n], column);
      OrderedStep(policies, "deny", column);
      if Usable(policies[n]) {
        DeniedLast(Snapshot(policies[..n]), SpecOf(policies[n]), column);
      }
    }
  }

  lemma {:induction false} MaskedIffOrdered(policies: seq<Policy>, column: string)
    ensures LastMask(Snapshot(policies), column).None? <==> !Ordered(policies, "mask", column)
    ensures forall l: nat :: LastOrder(policies, l, "mask", column) ==>
      LastMask(Snapshot(policies), column) ==
        Some(if policies[l].maskPattern.Some? then policies[l].maskPattern.value else "***")
  {
    if policies != [] {
      var n := |policies| - 1;
      MaskedIffOrdered(policies[..n], column);
      OrderedStep(policies, "mask", column);
      if Usable(policies[n]) {
        var before, last := Snapshot(policies[..n]), SpecOf(policies[n]);
        assert (before + [last])[..|before|] == before;
      }
      forall l: nat | LastOrder(policies, l, "mask", column) && l < n
        ensures LastOrder(policies[..n], l, "mask", column) && !Orders(policies[n], "mask", column)
      {
      }
    }
  }

  /** From the stored policies: a column is removed iff some active policy with action "deny" lists it,
      and otherwise masked by the last active policy with action "mask" that lists it, "***" by default,
      if there is one. Scope, priority and every other action have no say. */
  lemma PoliciesDecide(policies: seq<Policy>, column: string)
    ensures EffectOn(Snapshot(policies), column) == Remove <==> Ordered(policies, "deny", column)
    ensures EffectOn(Snapshot(policies), column) == Keep <==>
      !Ordered(policies, "deny", column) && !Ordered(policies, "mask", column)
    ensures forall l: nat :: LastOrder(policies, l, "mask", column) && !Ordered(policies, "deny", column) ==>
      EffectOn(Snapshot(policies), column) ==
        MaskWith(if policies[l].maskPattern.Some? then policies[l].maskPattern.value else "***")
  {
    DeniedIffOrdered(policies, column);
    MaskedIffOrdered(policies, column);
  }

  lemma {:induction false} SnapshotConcat(a: seq<Policy>, b: seq<Policy>)
    ensures Snapshot(a + b) == Snapshot(a) + Snapshot(b)
    decreases |b|
  {
    if b == [] {
      assert a + b == a;
    } else {
      assert (a + b)[..|a + b| - 1] == a + b[..|b| - 1];
      SnapshotConcat(a, b[..|b| - 1]);
    }
  }

  /** A policy that is inactive or has any other action might as well not be stored. */
  lemma OthersIgnored(a: seq<Policy>, p: Policy, b: seq<Policy>)
    requires !p.isActive || (p.action != "deny" && p.action != "mask")
    ensures Snapshot(a + [p] + b) == Snapshot(a + b)
  {
    SnapshotConcat(a + [p], b);
    SnapshotConcat(a, [p]);
    SnapshotConcat(a, b);
    assert [p][..0] == [];
  }

  lemma {:induction false} CutAt<T>(effects: seq<Effect>, s: seq<T>, i: nat)
    requires i < |s| && !(i < |effects| && effects[i].Remove?)
    ensures RemovedBefore(effects, i) <= i && i - RemovedBefore(effects, i) < |Cut(effects, s)|
    ensures Cut(effects, s)[i - RemovedBefore(effects, i)] == s[i]
  {
    if effects != [] && i > 0 {
      CutAt(effects[1..], s[1..], i - 1);
    }
  }

  lemma {:induction false} CutLength<T>(effects: seq<Effect>, s: seq<T>)
    ensures |Cut(effects, s)| == |s| - RemovedBefore(effects, |s|)
  {
    if effects != [] && s != [] {
      CutLength(effects[1..], s[1..]);
    }
  }

  /** The columns that no policy denies are left, and no others, each where its cells land. */
  lemma ColumnsLeft(policies: seq<Policy>, columns: seq<string>, row: seq<Value>, i: nat)
    requires |row| == |columns| && i < |columns|
    ensures var effects := Effects(Snapshot(policies), columns);
      && |Cut(effects, columns)| == |Project(effects, row)| == |columns| - RemovedBefore(effects, |columns|)
      && (!Ordered(policies, "deny", columns[i]) ==>
        0 <= i - RemovedBefore(effects, i) < |Cut(effects, columns)| &&
        Cut(effects, columns)[i - RemovedBefore(effects, i)] == columns[i])
      && (Ordered(policies, "deny", columns[i]) ==> columns[i] !in Cut(effects, columns))
  {
    var specs := Snapshot(policies);
    var effects := Effects(specs, columns);
    PoliciesDecide(policies, columns[i]);
    CutLength(effects, columns);
    ProjectLength(effects, row);
    assert effects[i] == EffectOn(specs, columns[i]);
    if Ordered(policies, "deny", columns[i]) {
      DeniedGone(specs, columns, columns[i]);
    } else {
      CutAt(effects, columns, i);
    }
  }

  lemma {:induction false} DeniedGone(specs: seq<Spec>, columns: seq<string>, column: string)
    requires Denied(specs, column)
    ensures column !in Cut(Effects(specs, columns), columns)
  {
    if columns != [] {
      assert Effects(specs, columns)[1..] == Effects(specs, columns[1..]);
      DeniedGone(specs, columns[1..], column);
    }
  }

  // The mask that is meant to decide: the first one listing the column, in priority order.
  ghost predicate FirstMask(specs: seq<Spec>, column: string, h: nat) {
    h < |specs| && Lists(specs[h], Mask, column) && forall k :: 0 <= k < h ==> !Lists(specs[k], Mask, column)
  }

  lemma {:induction false} LastMaskAt(specs: seq<Spec>, column: string) returns (l: nat)
    requires LastMask(specs, column).Some?
    ensures l < |specs| && Lists(specs[l], Mask, column) && forall k :: l < k < |specs| ==>
      !Lists(specs[k], Mask, column)
    ensures LastMask(specs, column) == Some(Pattern(specs[l]))
  {
    if Lists(specs[|specs| - 1], Mask, column) {
      l := |specs| - 1;
    } else {
      l := LastMaskAt(specs[..|specs| - 1], column);
    }
  }

  lemma {:induction false} ListedIsMasked(specs: seq<Spec>, column: string, h: nat)
    requires h < |specs| && Lists(specs[h], Mask, column)
    ensures LastMask(specs, column).Some?
  {
    if h < |specs| - 1 {
      ListedIsMasked(specs[..|specs| - 1], column, h);
    }
  }

  /** A column that is masked and not denied gets the pattern of its lowest-priority mask, at l. It
      gets that of its highest-priority mask, the first match at h, iff the two patterns agree. */
  lemma HighestMaskAppliesIff(specs: seq<Spec>, column: string, h: nat) returns (l: nat)
    requires ByPriority(specs) && !Denied(specs, column) && FirstMask(specs, column, h)
    ensures h <= l < |specs| && Lists(specs[l], Mask, column)
    ensures forall k :: 0 <= k < |specs| && Lists(specs[k], Mask, column) ==>
      specs[h].priority >= specs[k].priority >= specs[l].priority
    ensures EffectOn(specs, column) == MaskWith(Pattern(specs[l]))
    ensures EffectOn(specs, column) == MaskWith(Pattern(specs[h])) <==> Pattern(specs[h]) == Pattern(specs[l])
  {
    ListedIsMasked(specs, column, h);
    l := LastMaskAt(specs, column);
  }

  function TwoMasks(column: string, high: string, low: string): seq<Spec> {
    [Spec(Mask, "label", None, Some([column]), Some(high), 2), Spec(Mask, "label", None, Some([column]), Some(low), 1)]
  }

  /** For example, of two masks with different patterns the one of lower priority is applied. */
  lemma LowerPriorityApplied(column: string, high: string, low: string)
    requires high != low
    ensures var specs := TwoMasks(column, high, low);
      ByPriority(specs) && EffectOn(specs, column) == MaskWith(low)
  {
    var specs := TwoMasks(column, high, low);
    assert FirstMask(specs, column, 0);
    assert !Denied(specs, column);
    var l := HighestMaskAppliesIff(specs, column, 0);
    assert Lists(specs[1], Mask, column);
  }
}
