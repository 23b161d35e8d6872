/**
 * `TagSelector` and `TagGrid`: the selection toggle and the custom-tag
 * append on `OrderedSet`s, and the greedy packing of tags into rows.
 */
module TagSelector {
  import opened Wrappers

  // ---------------------------------------------------------------------
  // OrderedSet, as a duplicate-free sequence
  // ---------------------------------------------------------------------

  predicate NoDuplicates<T(==)>(s: seq<T>) {
    forall i, j | 0 <= i < j < |s| :: s[i] != s[j]
  }

  /** `remove(x)`: `s` with `x` taken out, the others in their order. */
  function Without<T(==)>(s: seq<T>, x: T): seq<T>
    decreases |s|
  {
    if |s| == 0 then []
    else (if s[0] == x then [] else [s[0]]) + Without(s[1..], x)
  }

  /** `append(x)`: `x` added at the end unless it is already there. */
  function Appended<T(==)>(s: seq<T>, x: T): (r: seq<T>)
    ensures x in r
    ensures forall y | y in s :: y in r
    ensures forall y | y in r :: y in s || y == x
  {
    if x in s then s else s + [x]
  }

  /** The tag button's action: a selected tag is removed, an unselected one appended. */
  function Toggled<T(==)>(s: seq<T>, t: T): seq<T> {
    if t in s then Without(s, t) else Appended(s, t)
  }

  lemma {:induction false} WithoutMembers<T>(s: seq<T>, x: T, y: T)
    ensures y in Without(s, x) <==> y in s && y != x
    decreases |s|
  {
    if |s| > 0 {
      WithoutMembers(s[1..], x, y);
      assert s == [s[0]] + s[1..];
    }
  }

  lemma {:induction false} WithoutAbsent<T>(s: seq<T>, x: T)
    requires x !in s
    ensures Without(s, x) == s
    decreases |s|
  {
    if |s| > 0 {
      WithoutAbsent(s[1..], x);
      assert s == [s[0]] + s[1..];
    }
  }

  lemma {:induction false} WithoutConcat<T>(a: seq<T>, b: seq<T>, x: T)
    ensures Without(a + b, x) == Without(a, x) + Without(b, x)
    decreases |a|
  {
    if |a| == 0 {
      assert a + b == b;
    } else {
      assert (a + b)[1..] == a[1..] + b;
      WithoutConcat(a[1..], b, x);
    }
  }

  lemma {:induction false} WithoutKeepsNoDuplicates<T>(s: seq<T>, x: T)
    requires NoDuplicates(s)
    ensures NoDuplicates(Without(s, x))
    decreases |s|
  {
    if |s| > 0 {
      WithoutKeepsNoDuplicates(s[1..], x);
      WithoutMembers(s[1..], x, s[0]);
      assert s[0] !in s[1..] by {
        forall k | 0 <= k < |s[1..]| ensures s[1..][k] != s[0] {
          assert s[1..][k] == s[k + 1];
        }
      }
      var rest := Without(s[1..], x);
      var head := if s[0] == x then [] else [s[0]];
      forall i, j | 0 <= i < j < |head + rest| ensures (head + rest)[i] != (head + rest)[j] {
        if |head| == 1 && i == 0 {
          assert (head + rest)[j] == rest[j - 1];
          assert rest[j - 1] in rest;
        } else {
          assert (head + rest)[i] == rest[i - |head|];
          assert (head + rest)[j] == rest[j - |head|];
        }
      }
    }
  }

  lemma NotInSlice<T>(s: seq<T>, lo: int, hi: int, x: T)
    requires 0 <= lo <= hi <= |s|
    requires forall k | lo <= k < hi :: s[k] != x
    ensures x !in s[lo..hi]
  {
    assert forall k | 0 <= k < hi - lo :: s[lo..hi][k] == s[lo + k];
  }

  /** In a duplicate-free sequence, removing `x` is cutting it out at its one position. */
  lemma {:induction false} WithoutAt<T>(s: seq<T>, i: int)
    requires NoDuplicates(s) && 0 <= i < |s|
    ensures Without(s, s[i]) == s[..i] + s[i + 1..]
    decreases i
  {
    var tail := s[1..];
    assert NoDuplicates(tail) by {
      forall a, b | 0 <= a < b < |tail| ensures tail[a] != tail[b] {
        assert tail[a] == s[a + 1] && tail[b] == s[b + 1];
      }
    }
    if i == 0 {
      NotInSlice(s, 1, |s|, s[0]);
      WithoutAbsent(tail, s[0]);
      assert Without(s, s[0]) == [] + Without(tail, s[0]);
    } else {
      assert s[0] != s[i];
      WithoutAt(tail, i - 1);
      assert tail[i - 1] == s[i];
      assert Without(s, s[i]) == [s[0]] + Without(tail, s[i]);
      assert tail[..i - 1] == s[1..i] && tail[i..] == s[i + 1..];
      assert [s[0]] + s[1..i] == s[..i];
    }
  }

  lemma WithoutSingleton<T>(x: T)
    ensures Without([x], x) == []
  {
    assert [x][1..] == [];
  }

  /** Appending keeps an ordered set duplicate-free and changes nothing when the element is present. */
  lemma AppendedKeepsNoDuplicates<T>(s: seq<T>, x: T)
    requires NoDuplicates(s)
    ensures NoDuplicates(Appended(s, x))
    ensures x in s ==> Appended(s, x) == s
    ensures x !in s ==> Appended(s, x) == s + [x]
  {
    if x !in s {
      forall i, j | 0 <= i < j < |s + [x]| ensures (s + [x])[i] != (s + [x])[j] {
        if j == |s| {
          assert (s + [x])[i] == s[i];
          assert s[i] in s;
        }
      }
    }
  }

  /** A toggle flips the membership of its tag and of no other. */
  lemma ToggleFlipsOnlyItsTag<T>(s: seq<T>, t: T, y: T)
    ensures t in Toggled(s, t) <==> t !in s
    ensures y != t ==> (y in Toggled(s, t) <==> y in s)
  {
    WithoutMembers(s, t, t);
    WithoutMembers(s, t, y);
  }

  /** A toggle keeps the selection duplicate-free, and the other tags keep their relative order. */
  lemma ToggleKeepsOthersInOrder<T>(s: seq<T>, t: T)
    requires NoDuplicates(s)
    ensures NoDuplicates(Toggled(s, t))
    ensures Without(Toggled(s, t), t) == Without(s, t)
  {
    if t in s {
      WithoutKeepsNoDuplicates(s, t);
      WithoutMembers(s, t, t);
      WithoutAbsent(Without(s, t), t);
    } else {
      AppendedKeepsNoDuplicates(s, t);
      WithoutConcat(s, [t], t);
      WithoutSingleton(t);
      assert s + [] == s;
    }
  }

  /** Tapping an unselected tag twice leaves the selection as it was. */
  lemma ToggleTwiceRestoresUnselected<T>(s: seq<T>, t: T)
    requires t !in s
    ensures Toggled(Toggled(s, t), t) == s
  {
    WithoutConcat(s, [t], t);
    WithoutAbsent(s, t);
    WithoutSingleton(t);
    assert s + [] == s;
  }

  /** The position of `x` in `s`, or `|s|` when it is absent (`OrderedSet.firstIndex(of:)`). */
  method IndexOf<T(==)>(s: seq<T>, x: T) returns (i: nat)
    ensures i <= |s|
    ensures i < |s| ==> s[i] == x
    ensures i == |s| <==> x !in s
    ensures forall k | 0 <= k < i :: s[k] != x
  {
    i := 0;
    while i < |s| && s[i] != x
      invariant i <= |s|
      invariant forall k | 0 <= k < i :: s[k] != x
    {
      i := i + 1;
    }
  }

  /** `TagSelector`'s bound selection. */
  class Selector<T(==)> {
    var selection: seq<T>

    ghost predicate Valid()
      reads this
    {
      NoDuplicates(selection)
    }

    constructor (selection: seq<T>)
      requires NoDuplicates(selection)
      ensures this.selection == selection && Valid()
    {
      this.selection := selection;
    }

    /** The tag button: `selection.contains(tag) ? selection.remove(tag) : selection.append(tag)`. */
    method Toggle(tag: T)
      requires Valid()
      modifies this
      ensures Valid()
      ensures selection == Toggled(old(selection), tag)
    {
      var i := IndexOf(selection, tag);
      if i < |selection| {
        WithoutAt(selection, i);
        selection := selection[..i] + selection[i + 1..];
      } else {
        selection := selection + [tag];
      }
      ToggleKeepsOthersInOrder(old(selection), tag);
    }
  }

  // ---------------------------------------------------------------------
  // TagGrid.computeRows
  // ---------------------------------------------------------------------

  /** What the packing sees: the width to fill, the gap, and the sizes read so far. */
  datatype Metrics<T> = Metrics(availableWidth: nat, spacing: nat, elementsSize: map<T, nat>)

  /** The width an element takes with its gap; an unmeasured element is taken as `availableWidth` wide. */
  function Cost<T>(m: Metrics<T>, e: T): nat {
    (if e in m.elementsSize then m.elementsSize[e] else m.availableWidth) + m.spacing
  }

  function RowCost<T>(m: Metrics<T>, row: seq<T>): nat
    decreases |row|
  {
    if |row| == 0 then 0 else RowCost(m, row[..|row| - 1]) + Cost(m, row[|row| - 1])
  }

  function Flatten<T>(rows: seq<seq<T>>): seq<T>
    decreases |rows|
  {
    if |rows| == 0 then [] else Flatten(rows[..|rows| - 1]) + rows[|rows| - 1]
  }

  /** The loop's state: the rows so far (the current one last) and the width left in the current row. */
  datatype Layout<T> = Layout(rows: seq<seq<T>>, remainingWidth: int)

  /** One step of the loop: the element joins the current row if it fits, else starts a new one. */
  function Place<T>(m: Metrics<T>, l: Layout<T>, e: T): Layout<T>
    requires |l.rows| > 0
  {
    var last := |l.rows| - 1;
    if l.remainingWidth - Cost(m, e) >= 0 then
      Layout(l.rows[last := l.rows[last] + [e]], l.remainingWidth - Cost(m, e))
    else
      Layout(l.rows + [[e]], m.availableWidth - Cost(m, e))
  }

  /** The loop run over `data`, from `[[]]` and the full width. */
  function LayoutOf<T>(m: Metrics<T>, data: seq<T>): (l: Layout<T>)
    ensures |l.rows| > 0
    decreases |data|
  {
    if |data| == 0 then Layout([[]], m.availableWidth)
    else Place(m, LayoutOf(m, data[..|data| - 1]), data[|data| - 1])
  }

  /** Every row after the first is non-empty. */
  ghost predicate LaterRowsNonEmpty<T>(rows: seq<seq<T>>) {
    forall i | 1 <= i < |rows| :: rows[i] != []
  }

  /** Every row fits the width, except a lone element too wide for any row. */
  ghost predicate RowsFit<T>(m: Metrics<T>, rows: seq<seq<T>>) {
    forall i | 0 <= i < |rows| :: RowCost(m, rows[i]) <= m.availableWidth || (i >= 1 && |rows[i]| == 1)
  }

  /** A row is started only for an element that did not fit in the row before. */
  ghost predicate RowsGreedy<T>(m: Metrics<T>, rows: seq<seq<T>>)
    requires LaterRowsNonEmpty(rows)
  {
    forall i | 1 <= i < |rows| :: RowCost(m, rows[i - 1]) + Cost(m, rows[i][0]) > m.availableWidth
  }

  /** The packing's guarantees, which every step of the loop keeps. */
  ghost predicate WellPacked<T>(m: Metrics<T>, l: Layout<T>) {
    && |l.rows| > 0
    && l.remainingWidth == m.availableWidth - RowCost(m, l.rows[|l.rows| - 1])
    && LaterRowsNonEmpty(l.rows)
    && RowsFit(m, l.rows)
    && RowsGreedy(m, l.rows)
  }

  lemma RowCostAppend<T>(m: Metrics<T>, row: seq<T>, e: T)
    ensures RowCost(m, row + [e]) == RowCost(m, row) + Cost(m, e)
  {
    assert (row + [e])[..|row|] == row;
  }

  lemma FlattenAppend<T>(rows: seq<seq<T>>, row: seq<T>)
    ensures Flatten(rows + [row]) == Flatten(rows) + row
  {
    assert (rows + [row])[..|rows|] == rows;
  }

  /** An element that fits joins the current row and the guarantees still hold. */
  lemma JoinKeepsPacking<T>(m: Metrics<T>, rows: seq<seq<T>>, remainingWidth: int, e: T)
    requires WellPacked(m, Layout(rows, remainingWidth))
    requires remainingWidth - Cost(m, e) >= 0
    ensures WellPacked(m, Layout(rows[|rows| - 1 := rows[|rows| - 1] + [e]], remainingWidth - Cost(m, e)))
  {
    var last := |rows| - 1;
    var rows' := rows[last := rows[last] + [e]];
    RowCostAppend(m, rows[last], e);
    assert LaterRowsNonEmpty(rows') by {
      forall i | 1 <= i < |rows'| ensures rows'[i] != [] {
        if i < last {
          assert rows'[i] == rows[i];
        }
      }
    }
    assert RowsFit(m, rows') by {
      forall i | 0 <= i < |rows'|
        ensures RowCost(m, rows'[i]) <= m.availableWidth || (i >= 1 && |rows'[i]| == 1)
      {
        if i < last {
          assert rows'[i] == rows[i];
        }
      }
    }
    assert RowsGreedy(m, rows') by {
      forall i | 1 <= i < |rows'|
        ensures RowCost(m, rows'[i - 1]) + Cost(m, rows'[i][0]) > m.availableWidth
      {
        assert rows'[i - 1] == rows[i - 1];
        assert rows'[i][0] == rows[i][0];
      }
    }
  }

  lemma FlattenJoin<T>(rows: seq<seq<T>>, e: T)
    requires |rows| > 0
    ensures Flatten(rows[|rows| - 1 := rows[|rows| - 1] + [e]]) == Flatten(rows) + [e]
  {
    var last := |rows| - 1;
    var front := rows[..last];
    assert rows == front + [rows[last]];
    assert rows[last := rows[last] + [e]] == front + [rows[last] + [e]];
    FlattenAppend(front, rows[last]);
    FlattenAppend(front, rows[last] + [e]);
  }

  /** An element that does not fit starts a new row and the guarantees still hold. */
  lemma StartKeepsPacking<T>(m: Metrics<T>, rows: seq<seq<T>>, remainingWidth: int, e: T)
    requires WellPacked(m, Layout(rows, remainingWidth))
    requires remainingWidth - Cost(m, e) < 0
    ensures WellPacked(m, Layout(rows + [[e]], m.availableWidth - Cost(m, e)))
    ensures Flatten(rows + [[e]]) == Flatten(rows) + [e]
  {
    var rows' := rows + [[e]];
    assert RowCost(m, [e]) == RowCost(m, [e][..0]) + Cost(m, e);
    assert forall i | 0 <= i < |rows| :: rows'[i] == rows[i];
    assert LaterRowsNonEmpty(rows');
    assert RowsFit(m, rows');
    assert RowsGreedy(m, rows') by {
      forall i | 1 <= i < |rows'|
        ensures RowCost(m, rows'[i - 1]) + Cost(m, rows'[i][0]) > m.availableWidth
      {
        if i == |rows| {
          assert rows'[i - 1] == rows[|rows| - 1];
        }
      }
    }
    FlattenAppend(rows, [e]);
  }

  lemma PlaceKeepsPacking<T>(m: Metrics<T>, l: Layout<T>, e: T)
    requires WellPacked(m, l)
    ensures WellPacked(m, Place(m, l, e))
    ensures Flatten(Place(m, l, e).rows) == Flatten(l.rows) + [e]
  {
    if l.remainingWidth - Cost(m, e) >= 0 {
      JoinKeepsPacking(m, l.rows, l.remainingWidth, e);
      FlattenJoin(l.rows, e);
    } else {
      StartKeepsPacking(m, l.rows, l.remainingWidth, e);
    }
  }

  /** What `computeRows` returns has every packing guarantee and holds `data`, in order. */
  lemma {:induction false} LayoutIsWellPacked<T>(m: Metrics<T>, data: seq<T>)
    ensures WellPacked(m, LayoutOf(m, data))
    ensures Flatten(LayoutOf(m, data).rows) == data
    decreases |data|
  {
    if |data| == 0 {
      StartIsWellPacked(m);
    } else {
      var prefix, e := data[..|data| - 1], data[|data| - 1];
      assert data == prefix + [e];
      var l := LayoutOf(m, prefix);
      assert LayoutOf(m, data) == Place(m, l, e);
      LayoutIsWellPacked(m, prefix);
      PlaceKeepsPacking(m, l, e);
    }
  }

  lemma StartIsWellPacked<T>(m: Metrics<T>)
    ensures WellPacked(m, Layout([[]], m.availableWidth))
    ensures Flatten<T>([[]]) == []
  {
    var rows: seq<seq<T>> := [[]];
    assert RowCost(m, rows[0]) == 0;
    assert rows[..0] == [];
  }

  /** Every element in a row of its own, after an empty first row. */
  function Singletons<T>(data: seq<T>): (rows: seq<seq<T>>)
    ensures |rows| == |data|
  {
    seq(|data|, i requires 0 <= i < |data| => [data[i]])
  }

  /**
   * With no sizes read (the size reader is disabled) and a positive gap,
   * every element is taken as the full width and none fits: the first row
   * stays empty and each element gets a row of its own.
   */
  lemma {:induction false} DefaultSizesGiveOneTagPerRow<T>(m: Metrics<T>, data: seq<T>)
    requires m.spacing > 0
    requires forall e | e in data :: e !in m.elementsSize
    ensures LayoutOf(m, data).rows == [[]] + Singletons(data)
    ensures LayoutOf(m, data).remainingWidth <= m.availableWidth
    decreases |data|
  {
    if |data| > 0 {
      var prefix := data[..|data| - 1];
      var e := data[|data| - 1];
      assert forall x | x in prefix :: x in data;
      DefaultSizesGiveOneTagPerRow(m, prefix);
      assert e in data;
      assert Cost(m, e) == m.availableWidth + m.spacing;
      assert [[]] + Singletons(data) == [[]] + Singletons(prefix) + [[e]];
    }
  }

  /** `TagGrid`'s state: the bound tags, the sizes read, and the custom-tag sheet. */
  class TagGrid<T(==)> {
    const availableWidth: nat
    const spacing: nat
    /** `.customisable(tagFromString)`, or nil for `.notCustomisable`. */
    const tagFromString: Option<string -> T>
    var data: seq<T>
    var elementsSize: map<T, nat>
    var showTagCreator: bool
    var newTag: string

    ghost predicate Valid()
      reads this
    {
      NoDuplicates(data)
    }

    constructor (availableWidth: nat, spacing: nat, tagFromString: Option<string -> T>, data: seq<T>)
      requires NoDuplicates(data)
      ensures this.availableWidth == availableWidth && this.spacing == spacing
      ensures this.tagFromString == tagFromString && this.data == data
      ensures elementsSize == map[] && !showTagCreator && newTag == ""
      ensures Valid()
    {
      this.availableWidth := availableWidth;
      this.spacing := spacing;
      this.tagFromString := tagFromString;
      this.data := data;
      elementsSize := map[];
      showTagCreator := false;
      newTag := "";
    }

    function CurrentMetrics(): Metrics<T>
      reads this
    {
      Metrics(availableWidth, spacing, elementsSize)
    }

    /** The "Add your own" button, shown only for a customisable grid. */
    method OpenTagCreator()
      requires tagFromString.Some?
      modifies this
      ensures showTagCreator
      ensures data == old(data) && newTag == old(newTag) && elementsSize == old(elementsSize)
    {
      showTagCreator := true;
    }

    /** The sheet's "Add" button: it closes the sheet and appends the new tag unless its name is empty. */
    method AddTag()
      requires tagFromString.Some? && Valid()
      modifies this
      ensures Valid() && !showTagCreator
      ensures newTag == old(newTag) && elementsSize == old(elementsSize)
      ensures old(newTag) == "" ==> data == old(data)
      ensures old(newTag) != "" ==> data == Appended(old(data), tagFromString.value(old(newTag)))
    {
      showTagCreator := false;
      if newTag != "" {
        AppendedKeepsNoDuplicates(data, tagFromString.value(newTag));
        data := Appended(data, tagFromString.value(newTag));
      }
    }

    /** `computeRows()`. */
    method ComputeRows() returns (rows: seq<seq<T>>)
      ensures rows == LayoutOf(CurrentMetrics(), data).rows
      ensures Flatten(rows) == data
      ensures |rows| > 0 && LaterRowsNonEmpty(rows)
      ensures RowsFit(CurrentMetrics(), rows)
      ensures RowsGreedy(CurrentMetrics(), rows)
    {
      var m := CurrentMetrics();
      rows := [[]];
      var currentRow := 0;
      var remainingWidth: int := availableWidth;
      for k := 0 to |data|
        invariant Layout(rows, remainingWidth) == LayoutOf(m, data[..k])
        invariant currentRow == |rows| - 1
      {
        var element := data[k];
        var width := if element in elementsSize then elementsSize[element] else availableWidth;
        if remainingWidth - (width + spacing) >= 0 {
          rows := rows[currentRow := rows[currentRow] + [element]];
        } else {
          currentRow := currentRow + 1;
          rows := rows + [[element]];
          remainingWidth := availableWidth;
        }
        remainingWidth := remainingWidth - (width + spacing);
        assert data[..k + 1][..k] == data[..k];
      }
      assert data[..|data|] == data;
      LayoutIsWellPacked(m, data);
    }
  }
}
