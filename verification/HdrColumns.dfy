/** The columns of the header table, kept in step with the display flags by inserting and removing
    in place. */
module HdrColumns {

  /** A tree view column: it shows header number `source` under that header's title. */
  class Column {
    const title: string
    const source: nat

    constructor (title: string, source: nat)
      ensures this.title == title && this.source == source
    {
      this.title, this.source := title, source;
    }
  }

  /** The title a missing column stands for. */
  const NO_COLUMN := "forced-insert"

  /** Headers can be told apart by title, and none is called like a missing column. */
  ghost predicate GoodTitles(desc: seq<string>)
  {
    && NO_COLUMN !in desc
    && forall i, j :: 0 <= i < j < |desc| ==> desc[i] != desc[j]
  }

  /** The header table of the viewer. */
  const HEADERS: seq<string> := [
    "Directory", "Filename", "Sensor ID", "Network", "Station", "Location", "Channel", "Start Time", "Length",
    "SPS", "Samples", "File Type", "Gain", "Scale", "Amplitudes", "Gaps", "Overlaps"]

  /** Its titles can be told apart, and none is called like a missing column. */
  lemma HeadersAreGood()
    ensures GoodTitles(HEADERS) && |HEADERS| == 17
  {
    var h := HEADERS;
    assert |NO_COLUMN| == 13 && forall i :: 0 <= i < |h| ==> |h[i]| < 13;
  }

  ghost predicate Titled(cols: seq<Column>, desc: seq<string>)
  {
    forall k :: 0 <= k < |cols| ==> cols[k].source < |desc| && cols[k].title == desc[cols[k].source]
  }

  /** Columns of different headers, in header order. */
  ghost predicate Ordered(cols: seq<Column>)
  {
    forall k, l :: 0 <= k < l < |cols| ==> cols[k].source < cols[l].source
  }

  /** The headers the columns show. */
  ghost function Sources(cols: seq<Column>): (s: seq<nat>)
    ensures |s| == |cols|
  {
    seq(|cols|, k requires 0 <= k < |cols| => cols[k].source)
  }

  /** The enabled ones of the first n headers, in order. */
  function Enabled(flags: seq<bool>, n: nat): (s: seq<nat>)
    requires n <= |flags|
    ensures |s| <= n && (forall k :: 0 <= k < |s| ==> s[k] < n)
    ensures forall k, l :: 0 <= k < l < |s| ==> s[k] < s[l]
  {
    if n == 0 then [] else Enabled(flags, n - 1) + if flags[n - 1] then [n - 1] else []
  }

  /** A header is in the list exactly when its flag is set. */
  lemma {:induction false} EnabledExactly(flags: seq<bool>, n: nat, i: nat)
    requires n <= |flags|
    ensures i in Enabled(flags, n) <==> i < n && flags[i]
  {
    if n > 0 { EnabledExactly(flags, n - 1, i); }
  }

  /** Columns of headers that had a column before are the same objects. */
  ghost predicate Reuses(cols: seq<Column>, before: seq<Column>)
  {
    forall k, l :: 0 <= k < |cols| && 0 <= l < |before| && cols[k].source == before[l].source ==> cols[k] == before[l]
  }

  /** The array starts with the columns, the rest is null. */
  ghost predicate Holds(a: seq<Column?>, cols: seq<Column>)
  {
    && |cols| <= |a|
    && forall k :: 0 <= k < |a| ==> a[k] == if k < |cols| then cols[k] else null
  }

  // ----- the loop on values

  /** What holds when the loop looks at header i: the first j columns are settled, the last `left`
      are still the old ones. */
  ghost predicate Halfway(desc: seq<string>, cols: seq<Column>, before: seq<Column>, flags: seq<bool>,
                          i: nat, j: nat, left: nat)
    requires i <= |flags|
  {
    && |cols| == j + left && left <= |before| && Titled(cols, desc) && Ordered(before)
    && Sources(cols[..j]) == Enabled(flags, i) && Reuses(cols[..j], before)
    && cols[j..] == before[|before| - left..]
    && (forall k :: 0 <= k < |before| - left ==> before[k].source < i)
    && forall k :: |before| - left <= k < |before| ==> i <= before[k].source
  }

  lemma {:induction false} OrderedRoom(cols: seq<Column>, n: nat, low: nat)
    requires Ordered(cols) && low <= n && forall k :: 0 <= k < |cols| ==> low <= cols[k].source < n
    ensures |cols| <= n - low
  {
    if |cols| > 0 { OrderedRoom(cols[1..], n, cols[0].source + 1); }
  }

  /** The next column carries the title of header i exactly when it is the old column of header i. */
  lemma NextColumn(desc: seq<string>, cols: seq<Column>, before: seq<Column>, flags: seq<bool>,
                   i: nat, j: nat, left: nat)
    requires i < |flags| == |desc| && GoodTitles(desc) && Halfway(desc, cols, before, flags, i, j, left)
    ensures left > 0 ==> cols[j] == before[|before| - left]
    ensures left > 0 && cols[j].title == desc[i] ==> cols[j].source == i
    ensures (left == 0 || cols[j].title != desc[i]) ==>
      forall k :: |before| - left <= k < |before| ==> i < before[k].source
  {
    if left > 0 {
      assert cols[j] == cols[j..][0];
    }
  }

  lemma SettleColumn(cols: seq<Column>, c: Column, flags: seq<bool>, i: nat)
    requires i < |flags| && flags[i] && Sources(cols) == Enabled(flags, i) && c.source == i
    ensures Sources(cols + [c]) == Enabled(flags, i + 1)
  {}

  lemma Keep(desc: seq<string>, cols: seq<Column>, before: seq<Column>, flags: seq<bool>, i: nat, j: nat, left: nat)
    requires i < |flags| == |desc| && GoodTitles(desc) && Halfway(desc, cols, before, flags, i, j, left)
    requires flags[i] && left > 0 && cols[j].title == desc[i]
    ensures Halfway(desc, cols, before, flags, i + 1, j + 1, left - 1)
  {
    NextColumn(desc, cols, before, flags, i, j, left);
    SettleColumn(cols[..j], cols[j], flags, i);
    assert cols[..j + 1] == cols[..j] + [cols[j]];
    assert cols[j + 1..] == cols[j..][1..];
  }

  lemma Skip(desc: seq<string>, cols: seq<Column>, before: seq<Column>, flags: seq<bool>, i: nat, j: nat, left: nat)
    requires i < |flags| == |desc| && GoodTitles(desc) && Halfway(desc, cols, before, flags, i, j, left)
    requires !flags[i] && (left == 0 || cols[j].title != desc[i])
    ensures Halfway(desc, cols, before, flags, i + 1, j, left)
  {
    NextColumn(desc, cols, before, flags, i, j, left);
  }

  lemma Inserted(desc: seq<string>, cols: seq<Column>, before: seq<Column>, flags: seq<bool>,
                 i: nat, j: nat, left: nat, c: Column)
    requires i < |flags| == |desc| && GoodTitles(desc) && Halfway(desc, cols, before, flags, i, j, left)
    requires flags[i] && (left == 0 || cols[j].title != desc[i])
    requires c.source == i && c.title == desc[i]
    ensures Halfway(desc, cols[..j] + [c] + cols[j..], before, flags, i + 1, j + 1, left)
  {
    NextColumn(desc, cols, before, flags, i, j, left);
    SettleColumn(cols[..j], c, flags, i);
    var r := cols[..j] + [c] + cols[j..];
    assert r[..j + 1] == cols[..j] + [c];
    assert r[j + 1..] == cols[j..];
  }

  /** There is room in the array for one more column. */
  lemma Room(desc: seq<string>, cols: seq<Column>, before: seq<Column>, flags: seq<bool>, i: nat, j: nat, left: nat)
    requires i < |flags| == |desc| && GoodTitles(desc) && Halfway(desc, cols, before, flags, i, j, left)
    requires left == 0 || cols[j].title != desc[i]
    ensures |cols| + 1 <= |desc|
  {
    NextColumn(desc, cols, before, flags, i, j, left);
    var rest := cols[j..];
    forall k | 0 <= k < |rest|
      ensures i + 1 <= rest[k].source < |desc|
    {
      assert rest[k] == before[|before| - left + k] && rest[k] == cols[j + k];
    }
    OrderedRoom(rest, |desc|, i + 1);
  }

  lemma Dropped(desc: seq<string>, cols: seq<Column>, before: seq<Column>, flags: seq<bool>, i: nat, j: nat, left: nat)
    requires i < |flags| == |desc| && GoodTitles(desc) && Halfway(desc, cols, before, flags, i, j, left)
    requires !flags[i] && left > 0 && cols[j].title == desc[i]
    ensures Halfway(desc, cols[..j] + cols[j + 1..], before, flags, i + 1, j, left - 1)
  {
    NextColumn(desc, cols, before, flags, i, j, left);
    var r := cols[..j] + cols[j + 1..];
    assert r[..j] == cols[..j];
    assert r[j..] == cols[j..][1..];
  }

  lemma Finished(desc: seq<string>, cols: seq<Column>, before: seq<Column>, flags: seq<bool>, j: nat, left: nat)
    requires |flags| == |desc| && Titled(before, desc) && Halfway(desc, cols, before, flags, |desc|, j, left)
    ensures Sources(cols) == Enabled(flags, |desc|) && Reuses(cols, before) && Ordered(cols)
  {
    hide Titled, Reuses, Enabled;
    if left > 0 { LastSource(cols, desc); }
    assert cols[..j] == cols;
    OrderedBySources(cols);
  }

  lemma LastSource(cols: seq<Column>, desc: seq<string>)
    requires Titled(cols, desc) && |cols| > 0
    ensures cols[|cols| - 1].source < |desc|
  {}

  lemma OrderedBySources(cols: seq<Column>)
    requires forall k, l :: 0 <= k < l < |cols| ==> Sources(cols)[k] < Sources(cols)[l]
    ensures Ordered(cols)
  {
    assert forall k :: 0 <= k < |cols| ==> cols[k].source == Sources(cols)[k];
  }

  // ----- the table

  /** a with n elements from src copied to dst. */
  function Moved<T>(a: seq<T>, dst: nat, src: nat, n: nat): (r: seq<T>)
    requires dst + n <= |a| && src + n <= |a|
    ensures |r| == |a|
  {
    a[..dst] + a[src..src + n] + a[dst + n..]
  }

  /** memmove: n elements from src to dst, both ranges inside the array. */
  method Move(a: array<Column?>, dst: nat, src: nat, n: nat)
    requires dst + n <= a.Length && src + n <= a.Length
    modifies a
    ensures a[..] == Moved(old(a[..]), dst, src, n)
  {
    hide Moved;
    ghost var was := a[..];
    MovedNothing(was, dst, src);
    MovedNothing(was, dst + n, src + n);
    if dst <= src {
      var i := 0;
      while i < n
        invariant 0 <= i <= n
        invariant a[..] == Moved(was, dst, src, i)
      {
        MovedNext(was, dst, src, i);
        assert a[src + i] == a[..][src + i];
        a[dst + i] := a[src + i];
        i := i + 1;
      }
    } else {
      var i := n;
      while i > 0
        invariant 0 <= i <= n
        invariant a[..] == Moved(was, dst + i, src + i, n - i)
      {
        i := i - 1;
        assert a[src + i] == a[..][src + i];
        MovedBefore(was, dst + i, src + i, n - i);
        a[dst + i] := a[src + i];
      }
    }
  }

  lemma MovedNext<T>(a: seq<T>, dst: nat, src: nat, n: nat)
    requires dst + n < |a| && src + n < |a|
    ensures Moved(a, dst, src, n + 1) == Moved(a, dst, src, n)[dst + n := a[src + n]]
    ensures dst <= src ==> Moved(a, dst, src, n)[src + n] == a[src + n]
  {}

  lemma MovedNothing<T>(a: seq<T>, dst: nat, src: nat)
    requires dst <= |a| && src <= |a|
    ensures Moved(a, dst, src, 0) == a
  {}

  lemma MovedBefore<T>(a: seq<T>, dst: nat, src: nat, n: nat)
    requires 0 < n && dst + n <= |a| && src + n <= |a|
    ensures Moved(a, dst, src, n) == Moved(a, dst + 1, src + 1, n - 1)[dst := a[src]]
    ensures src <= dst ==> Moved(a, dst + 1, src + 1, n - 1)[src] == a[src]
  {}

  /** The tree view without a column. */
  function Without(tree: seq<Column>, c: Column): seq<Column>
  {
    if tree == [] then [] else if tree[0] == c then tree[1..] else [tree[0]] + Without(tree[1..], c)
  }

  lemma {:induction false} WithoutAt(tree: seq<Column>, j: nat)
    requires j < |tree| && forall k :: 0 <= k < j ==> tree[k] != tree[j]
    ensures Without(tree, tree[j]) == tree[..j] + tree[j + 1..]
  {
    if j == 0 {
      assert tree[..0] + tree[1..] == tree[1..];
    } else {
      var rest := tree[1..];
      assert rest[j - 1] == tree[j] && forall k :: 0 <= k < j - 1 ==> rest[k] == tree[k + 1];
      WithoutAt(rest, j - 1);
      assert [tree[0]] + (rest[..j - 1] + rest[j..]) == tree[..j] + tree[j + 1..];
    }
  }

  class HeaderTable {
    const desc: seq<string>
    const column: array<Column?>
    var numCols: nat
    var tree: seq<Column>

    /** The array, the count and the tree view agree. */
    ghost predicate Synchronised()
      reads this, column
    {
      column.Length == |desc| && numCols == |tree| && Holds(column[..], tree)
    }

    ghost predicate Valid()
      reads this, column
    {
      Synchronised() && GoodTitles(desc) && Titled(tree, desc) && Ordered(tree)
    }

    constructor (desc: seq<string>)
      requires GoodTitles(desc)
      ensures Valid() && tree == [] && this.desc == desc && fresh(column)
    {
      this.desc := desc;
      column := new Column?[|desc|](_ => null);
      numCols, tree := 0, [];
    }

    /** Insert a column at position j, in front of `left` old ones. */
    method Insert(c: Column, j: nat, left: nat)
      requires Synchronised() && numCols == j + left < column.Length
      modifies this, column
      ensures Synchronised() && tree == old(tree[..j] + [c] + tree[j..])
    {
      if left > 0 {
        Move(column, j + 1, j, left);
      }
      column[j] := c;
      HoldsInserted(old(column[..]), tree, j, left, c, column[..]);
      tree := tree[..j] + [c] + tree[j..];
      numCols := numCols + 1;
    }

    /** Remove the column at position j, the first of `left` old ones. */
    method Remove(j: nat, left: nat)
      requires Synchronised() && numCols == j + left && left > 0
      requires forall k :: 0 <= k < j ==> tree[k] != tree[j]
      modifies this, column
      ensures Synchronised() && tree == old(tree[..j] + tree[j + 1..])
    {
      WithoutAt(tree, j);
      assert column[j] == tree[j];
      ghost var t := tree;
      tree := Without(tree, column[j]);
      Move(column, j, j + 1, left - 1);
      column[left - 1 + j] := null;
      HoldsRemoved(old(column[..]), t, j, left, column[..]);
      numCols := numCols - 1;
    }

    /** Bring the columns in step with the flags. */
    method AddHdrColumns(flags: seq<bool>)
      requires Valid() && |flags| == |desc|
      modifies this, column
      ensures Valid() && Sources(tree) == Enabled(flags, |desc|) && Reuses(tree, old(tree))
    {
      hide Halfway, Holds, Titled, Ordered, Sources, Reuses, Enabled;
      ghost var before := tree;
      var colsRemaining, i, j := numCols, 0, 0;
      Starting(desc, before, flags);
      while i < |desc|
        invariant 0 <= i <= |desc| && 0 <= j <= i && 0 <= colsRemaining && numCols == j + colsRemaining
        invariant Synchronised() && Halfway(desc, tree, before, flags, i, j, colsRemaining)
      {
        HoldsAt(column[..], tree, j);
        var colTitle := if column[j] != null then column[j].title else NO_COLUMN;
        if flags[i] {
          if colTitle == desc[i] {
            Keep(desc, tree, before, flags, i, j, colsRemaining);
            colsRemaining, j := colsRemaining - 1, j + 1;
          } else {
            Room(desc, tree, before, flags, i, j, colsRemaining);
            var c := new Column(desc[i], i);
            Inserted(desc, tree, before, flags, i, j, colsRemaining, c);
            Insert(c, j, colsRemaining);
            j := j + 1;
          }
        } else {
          if colTitle == desc[i] {
            Dropped(desc, tree, before, flags, i, j, colsRemaining);
            Settled(desc, tree, before, flags, i, j, colsRemaining);
            Remove(j, colsRemaining);
            colsRemaining := colsRemaining - 1;
          } else {
            Skip(desc, tree, before, flags, i, j, colsRemaining);
          }
        }
        i := i + 1;
      }
      Finished(desc, tree, before, flags, j, colsRemaining);
      StillTitled(desc, tree, before, flags, j, colsRemaining);
    }
  }

  lemma Starting(desc: seq<string>, cols: seq<Column>, flags: seq<bool>)
    requires |flags| == |desc| && Titled(cols, desc) && Ordered(cols)
    ensures Halfway(desc, cols, cols, flags, 0, 0, |cols|)
  {}

  lemma HoldsInserted(a: seq<Column?>, cols: seq<Column>, j: nat, left: nat, c: Column, b: seq<Column?>)
    requires Holds(a, cols) && |cols| == j + left < |a|
    requires b == (if left > 0 then Moved(a, j + 1, j, left) else a)[j := c]
    ensures Holds(b, cols[..j] + [c] + cols[j..])
  {}

  lemma HoldsRemoved(a: seq<Column?>, cols: seq<Column>, j: nat, left: nat, b: seq<Column?>)
    requires Holds(a, cols) && |cols| == j + left && left > 0
    requires b == Moved(a, j, j + 1, left - 1)[left - 1 + j := null]
    ensures Holds(b, cols[..j] + cols[j + 1..])
  {}

  lemma HoldsAt(a: seq<Column?>, cols: seq<Column>, j: nat)
    requires Holds(a, cols) && j < |a|
    ensures a[j] == if j < |cols| then cols[j] else null
  {}

  /** The settled columns are not the next one. */
  lemma Settled(desc: seq<string>, cols: seq<Column>, before: seq<Column>, flags: seq<bool>, i: nat, j: nat, left: nat)
    requires i < |flags| == |desc| && GoodTitles(desc) && Halfway(desc, cols, before, flags, i, j, left)
    requires left > 0 && cols[j].title == desc[i]
    ensures forall k :: 0 <= k < j ==> cols[k] != cols[j]
  {
    NextColumn(desc, cols, before, flags, i, j, left);
    assert forall k :: 0 <= k < j ==> cols[k].source == Sources(cols[..j])[k] < i;
  }

  lemma StillTitled(desc: seq<string>, cols: seq<Column>, before: seq<Column>, flags: seq<bool>, j: nat, left: nat)
    requires |flags| == |desc| && Halfway(desc, cols, before, flags, |desc|, j, left)
    ensures Titled(cols, desc)
  {}
}
