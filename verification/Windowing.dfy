/**
 Windowed lists: the results grid (src/components/ResultsTable.tsx) and the audit change feed
 (src/components/AuditChangeFeed.tsx). Pixels are exact reals.
 */
module Windowing {

  const ROW_HEIGHT := 34
  const OVERSCAN := 6
  const VIRT_THRESHOLD := 80

  function Ceil(x: real): (c: int)
    ensures x <= c as real < x + 1.0
  {
    -((-x).Floor)
  }

  function MaxI(a: int, b: int): int { if a < b then b else a }

  function MinI(a: int, b: int): int { if a < b then a else b }

  datatype Window = Window(startIndex: int, endIndex: int, padTop: int, padBottom: int, virtualizing: bool)

  /** Row `r` and the viewport of height `extent` from `top` on, in table coordinates, share some height. */
  predicate Meets(rowHeight: int, r: int, top: real, extent: real) {
    (rowHeight * r) as real < top + extent && top < (rowHeight * (r + 1)) as real
  }

  /** Two scroll positions at most six rows of 34 px apart. */
  predicate Near(a: real, b: real) {
    a - 204.0 <= b <= a + 204.0
  }

  /** Everything a window promises about `count` rows and a viewport. */
  ghost predicate Covers(w: Window, count: nat, top: real, extent: real) {
    && 0 <= w.startIndex <= w.endIndex <= count
    && w.padTop + 34 * (w.endIndex - w.startIndex) + w.padBottom == 34 * count
    && w.padTop == 34 * w.startIndex
    && (forall r, t: real :: 0 <= r < count && Near(top, t) && Meets(34, r, t, extent) ==>
        w.startIndex <= r < w.endIndex)
  }

  lemma DivLess(x: real, n: real, h: real)
    requires h > 0.0
    ensures x < n * h <==> x / h < n
    ensures x > n * h <==> x / h > n
  {
    var q := x / h;
    assert q * h == x;
    assert q < n ==> q * h < n * h;
    assert q > n ==> q * h > n * h;
  }

  lemma FloorMeets(height: int, r: int, top: real)
    requires height > 0 && top < (height * (r + 1)) as real
    ensures (top / height as real).Floor <= r
  {
    DivLess(top, (r + 1) as real, height as real);
  }

  lemma CeilMeets(height: int, r: int, bottom: real)
    requires height > 0 && (height * r) as real < bottom
    ensures r < Ceil(bottom / height as real)
  {
    DivLess(bottom, r as real, height as real);
  }

  /** Scrolling by at most `k` rows moves both ends of the row range by at most `k`. */
  lemma FloorShift(height: int, top: real, d: real, k: nat)
    requires height > 0 && -((height * k) as real) <= d <= (height * k) as real
    ensures (top / height as real).Floor - k <= ((top + d) / height as real).Floor
    ensures Ceil((top + d) / height as real) <= Ceil(top / height as real) + k
  {
    var h := height as real;
    assert (top + d) / h == top / h + d / h;
    DivLess(d, k as real, h);
    DivLess(d, -(k as real), h);
  }

  /** How many rows two range ends can be apart. */
  lemma RangeLength(height: int, top: real, extent: real)
    requires height > 0
    ensures Ceil((top + extent) / height as real) - (top / height as real).Floor <= Ceil(extent / height as real) + 1
  {
    var h := height as real;
    assert (top + extent) / h == top / h + extent / h;
  }

  /**
   `recompute`: rectangles and scroll offsets are what the browser reports. The window covers the
   viewport even after a further scroll of up to six rows, keeps the scroll height exact, and mounts
   at most as many rows as fit the viewport plus 13.
   */
  method Recompute(count: nat, wrapTop: real, scrollerTop: real, scrollTop: real, clientHeight: real)
    returns (w: Window)
    requires clientHeight >= 0.0
    ensures Covers(w, count, scrollTop - (wrapTop - scrollerTop + scrollTop), clientHeight)
    ensures w.virtualizing && w.endIndex - w.startIndex <= Ceil(clientHeight / 34.0) + 13
  {
    var tableTop := wrapTop - scrollerTop + scrollTop;
    var viewportTop := if scrollTop - tableTop > 0.0 then scrollTop - tableTop else 0.0;
    var viewportBottom := scrollTop + clientHeight - tableTop;
    var start := (viewportTop / ROW_HEIGHT as real).Floor - OVERSCAN;
    var end := Ceil(viewportBottom / ROW_HEIGHT as real) + OVERSCAN;
    start := MaxI(0, MinI(start, count));
    end := MaxI(start, MinI(end, count));
    w := Window(start, end, start * ROW_HEIGHT, (count - end) * ROW_HEIGHT, true);

    ghost var top := scrollTop - tableTop;
    forall r, t: real | 0 <= r < count && Near(top, t) && Meets(ROW_HEIGHT, r, t, clientHeight)
      ensures start <= r < end
    {
      RowMounted(count, r, t, top, clientHeight);
    }
    WindowSize(count, top, clientHeight);
  }

  function WindowStart(count: nat, top: real): int {
    MaxI(0, MinI(((if top > 0.0 then top else 0.0) / ROW_HEIGHT as real).Floor - OVERSCAN, count))
  }

  function WindowEnd(count: nat, top: real, bottom: real): int {
    MaxI(WindowStart(count, top), MinI(Ceil(bottom / ROW_HEIGHT as real) + OVERSCAN, count))
  }

  lemma RowMounted(count: nat, r: int, t: real, top: real, extent: real)
    requires 0 <= r < count && Near(top, t) && Meets(ROW_HEIGHT, r, t, extent)
    ensures WindowStart(count, top) <= r < WindowEnd(count, top, top + extent)
  {
    FloorMeets(ROW_HEIGHT, r, t);
    CeilMeets(ROW_HEIGHT, r, t + extent);
    FloorShift(ROW_HEIGHT, top, t - top, OVERSCAN);
    FloorShift(ROW_HEIGHT, top + extent, t - top, OVERSCAN);
    assert top + (t - top) == t && top + extent + (t - top) == t + extent;
  }

  lemma WindowSize(count: nat, top: real, clientHeight: real)
    requires clientHeight >= 0.0
    ensures WindowEnd(count, top, top + clientHeight) - WindowStart(count, top)
      <= Ceil(clientHeight / ROW_HEIGHT as real) + 2 * OVERSCAN + 1
  {
    RangeLength(ROW_HEIGHT, if top > 0.0 then top else 0.0, clientHeight);
    var h := ROW_HEIGHT as real;
    assert (top + clientHeight) / h <= ((if top > 0.0 then top else 0.0) + clientHeight) / h;
  }

  /** The effect: small or disabled tables, and tables not attached yet, show every row. */
  method UseVirtualWindow(count: nat, enabled: bool, attached: bool,
                          wrapTop: real, scrollerTop: real, scrollTop: real, clientHeight: real)
    returns (w: Window)
    requires clientHeight >= 0.0
    ensures Covers(w, count, scrollTop - (wrapTop - scrollerTop + scrollTop), clientHeight)
    ensures !w.virtualizing ==> w == Window(0, count, 0, 0, false)
    ensures !w.virtualizing <==> !enabled || count <= 80 || !attached
    ensures w.virtualizing ==> w.endIndex - w.startIndex <= Ceil(clientHeight / 34.0) + 13
  {
    if !enabled || count <= VIRT_THRESHOLD || !attached {
      return Window(0, count, 0, 0, false);
    }
    w := Recompute(count, wrapTop, scrollerTop, scrollTop, clientHeight);
  }

  // ----- The change feed -----

  const FEED_ROW_HEIGHT := 36
  const VISIBLE_ROWS := 10
  const FEED_OVERSCAN := 3
  const FEED_EXTENT: real := (FEED_ROW_HEIGHT * VISIBLE_ROWS) as real

  datatype Placed<T> = Placed(item: T, top: int)

  function FirstVisible(scrollTop: real): int {
    MaxI(0, (scrollTop / FEED_ROW_HEIGHT as real).Floor - FEED_OVERSCAN)
  }

  function LastVisible(count: nat, scrollTop: real): int {
    MinI(count - 1, Ceil((scrollTop + FEED_EXTENT) / FEED_ROW_HEIGHT as real) + FEED_OVERSCAN)
  }

  /** `items.slice(a, b)`: bounds are clamped to the list, and a negative end counts from the back. */
  function Slice<T>(items: seq<T>, a: nat, b: int): seq<T> {
    var lo := MinI(a, |items|);
    var end := if b < 0 then MaxI(0, |items| + b) else MinI(b, |items|);
    items[lo..MaxI(lo, end)]
  }

  function FeedRows<T>(items: seq<T>, scrollTop: real): seq<Placed<T>> {
    var first := FirstVisible(scrollTop);
    var visible := Slice(items, first, LastVisible(|items|, scrollTop) + 1);
    seq(|visible|, i requires 0 <= i < |visible| => Placed(visible[i], (first + i) * FEED_ROW_HEIGHT))
  }

  lemma SliceLength<T>(items: seq<T>, a: nat, b: int)
    ensures |Slice(items, a, b)| == MaxI(0,
      (if b < 0 then MaxI(0, |items| + b) else MinI(b, |items|)) - MinI(a, |items|))
    ensures forall i :: 0 <= i < |Slice(items, a, b)| ==> a + i < |items| && Slice(items, a, b)[i] == items[a + i]
  {
  }

  /** First and last row in terms of the row that the offset is in. */
  lemma FeedBounds(count: nat, scrollTop: real)
    ensures var c, f := Ceil(scrollTop / 36.0), (scrollTop / 36.0).Floor;
      && f <= c <= f + 1 && (scrollTop > -540.0 <==> c >= -14)
      && FirstVisible(scrollTop) == MaxI(0, f - 3) && LastVisible(count, scrollTop) == MinI(count - 1, c + 13)
  {
    assert (scrollTop + FEED_EXTENT) / FEED_ROW_HEIGHT as real == scrollTop / 36.0 + 10.0;
  }

  /**
   The rendered rows are consecutive items of the list, each at 36 px times its own index, and they include
   every row that meets the viewport, whatever the offset. They are at most 18, except exactly when the
   browser overscrolls to -540 or less and the list is long: then the end of the slice counts from the back.
   */
  lemma FeedCovers<T>(items: seq<T>, scrollTop: real)
    ensures var rows, first := FeedRows(items, scrollTop), FirstVisible(scrollTop);
      && (forall i :: 0 <= i < |rows| ==>
          first + i < |items| && rows[i] == Placed(items[first + i], 36 * (first + i)))
      && (forall r :: 0 <= r < |items| && Meets(36, r, scrollTop, 360.0) ==>
          first <= r < first + |rows|)
      && (|rows| <= 18 <==> scrollTop > -540.0 || |items| <= 18 - (Ceil(scrollTop / 36.0) + 14))
  {
    FeedBounds(|items|, scrollTop);
    SliceLength(items, FirstVisible(scrollTop), LastVisible(|items|, scrollTop) + 1);
    var rows, first := FeedRows(items, scrollTop), FirstVisible(scrollTop);
    forall r | 0 <= r < |items| && Meets(FEED_ROW_HEIGHT, r, scrollTop, FEED_EXTENT)
      ensures first <= r < first + |rows|
    {
      FloorMeets(FEED_ROW_HEIGHT, r, scrollTop);
      CeilMeets(FEED_ROW_HEIGHT, r, scrollTop + FEED_EXTENT);
    }
  }

  // ----- Column discovery -----

  const SCAN_CAP := 60
  const COLUMN_STOP := 24

  /** The members of a list, each once, in order of first occurrence. */
  function Distinct(keys: seq<string>): (r: seq<string>)
    ensures forall k :: k in r <==> k in keys
    ensures forall i, j :: 0 <= i < j < |r| ==> r[i] != r[j]
  {
    if keys == [] then []
    else
      var front := Distinct(keys[..|keys| - 1]);
      var last := keys[|keys| - 1];
      assert keys == keys[..|keys| - 1] + [last];
      if last in front then front else front + [last]
  }

  /** The keys of the first documents, one document after the other. */
  function AllKeys(documents: seq<seq<string>>): seq<string> {
    if documents == [] then [] else AllKeys(documents[..|documents| - 1]) + documents[|documents| - 1]
  }

  lemma AllKeysMeans(documents: seq<seq<string>>, keys: seq<string>)
    ensures AllKeys([]) == [] && AllKeys(documents + [keys]) == AllKeys(documents) + keys
  {
    assert (documents + [keys])[..|documents|] == documents;
  }

  /** Some occurrence of `s` stands before all of `t`. */
  ghost predicate Before(keys: seq<string>, s: string, t: string) {
    exists p :: 0 <= p < |keys| && keys[p] == s && forall q :: 0 <= q < |keys| && keys[q] == t ==> p < q
  }

  /** The distinct members stand in the order of their first occurrences. */
  lemma {:induction false} DistinctInOrder(keys: seq<string>)
    ensures forall i, j :: 0 <= i < j < |Distinct(keys)| ==> Before(keys, Distinct(keys)[i], Distinct(keys)[j])
    decreases |keys|
  {
    if keys != [] {
      var front, last := keys[..|keys| - 1], keys[|keys| - 1];
      DistinctInOrder(front);
      forall i, j | 0 <= i < j < |Distinct(keys)|
        ensures Before(keys, Distinct(keys)[i], Distinct(keys)[j])
      {
        BeforeLast(front, last, i, j);
        assert keys == front + [last];
      }
    }
  }

  lemma BeforeLast(front: seq<string>, last: string, i: nat, j: nat)
    requires forall k, l :: 0 <= k < l < |Distinct(front)| ==> Before(front, Distinct(front)[k], Distinct(front)[l])
    requires i < j < |Distinct(front + [last])|
    ensures Before(front + [last], Distinct(front + [last])[i], Distinct(front + [last])[j])
  {
    DistinctSnoc(front, last);
    var all, r := front + [last], Distinct(front + [last]);
    assert all[|front|] == last && forall p :: 0 <= p < |front| ==> all[p] == front[p];
    if j < |Distinct(front)| {
      assert Before(front, Distinct(front)[i], Distinct(front)[j]);
      var p :| 0 <= p < |front| && front[p] == r[i] && forall q :: 0 <= q < |front| && front[q] == r[j] ==> p < q;
      assert all[p] == r[i];
    } else {
      assert r[i] in Distinct(front);
      var p :| 0 <= p < |front| && front[p] == r[i];
      assert all[p] == r[i] && r[j] !in front;
    }
  }

  /** The columns of the first `m` documents. */
  function Columns(documents: seq<seq<string>>, m: nat): seq<string>
    requires m <= |documents|
  {
    Distinct(AllKeys(documents[..m]))
  }

  lemma DistinctSnoc(keys: seq<string>, k: string)
    ensures Distinct(keys + [k]) == if k in keys then Distinct(keys) else Distinct(keys) + [k]
  {
    assert (keys + [k])[..|keys|] == keys;
  }

  /** The scan takes `m` documents: it stops as soon as there are 24 columns, or else at the end or after 60. */
  ghost predicate Scans(documents: seq<seq<string>>, m: nat) {
    && m <= |documents| && m <= 60
    && (forall j :: 0 <= j < m ==> |Columns(documents, j)| < 24)
    && (m < |documents| && m < 60 ==> |Columns(documents, m)| >= 24)
  }

  /** There is only one such number. */
  lemma ScansOnce(documents: seq<seq<string>>, m: nat, n: nat)
    requires Scans(documents, m) && Scans(documents, n)
    ensures m == n
  {
  }

  lemma {:induction false} ColumnsGrow(documents: seq<seq<string>>, i: nat, j: nat)
    requires i <= j <= |documents|
    ensures |Columns(documents, i)| <= |Columns(documents, j)|
    decreases j
  {
    if i < j {
      ColumnsGrow(documents, i, j - 1);
      ColumnsSnoc(documents, j - 1);
      var more := documents[j - 1];
      DistinctGrows(AllKeys(documents[..j - 1]), more, |more|);
      assert more[..|more|] == more;
    }
  }

  lemma {:induction false} DistinctGrows(keys: seq<string>, more: seq<string>, k: nat)
    requires k <= |more|
    ensures |Distinct(keys)| <= |Distinct(keys + more[..k])|
    decreases k
  {
    if k == 0 {
      assert keys + more[..0] == keys;
    } else {
      DistinctGrows(keys, more, k - 1);
      OneMoreKey(keys, more, k - 1);
    }
  }

  lemma OneMoreKey(before: seq<string>, keys: seq<string>, j: nat)
    requires j < |keys|
    ensures |Distinct(before + keys[..j])| <= |Distinct(before + keys[..j + 1])|
  {
    KeysSnoc(before, keys, j);
  }

  /** Document `i` takes the number of columns from below the limit to above it. */
  predicate JumpsOver(documents: seq<seq<string>>, i: nat)
    requires i < |documents|
  {
    |Columns(documents, i)| < 24 < |Columns(documents, i + 1)|
  }

  /** The limit is kept exactly when no document among the first 60 jumps over it. */
  lemma LimitKeptIff(documents: seq<seq<string>>, m: nat)
    requires Scans(documents, m)
    ensures |Columns(documents, m)| <= 24
      <==> forall i :: 0 <= i < |documents| && i < 60 ==> !JumpsOver(documents, i)
  {
    if |Columns(documents, m)| > COLUMN_STOP {
      assert documents[..0] == [];
      assert m > 0;
      assert JumpsOver(documents, m - 1);
    } else {
      forall i | 0 <= i < |documents| && i < SCAN_CAP
        ensures !JumpsOver(documents, i)
      {
        if i < m {
          ColumnsGrow(documents, i + 1, m);
        } else {
          ColumnsGrow(documents, m, i);
        }
      }
    }
  }

  lemma {:induction false} DistinctKept(keys: seq<string>)
    requires forall i, j :: 0 <= i < j < |keys| ==> keys[i] != keys[j]
    ensures Distinct(keys) == keys
    decreases |keys|
  {
    if keys != [] {
      var n := |keys| - 1;
      DistinctKept(keys[..n]);
      assert keys == keys[..n] + [keys[n]];
    }
  }

  /** Thirty keys, each longer than the one before. */
  function WideDocument(): seq<string> {
    seq(30, i requires 0 <= i < 30 => seq(i, _ => 'k'))
  }

  lemma WideKeys()
    ensures var keys := WideDocument();
      |keys| == 30 && forall i, j :: 0 <= i < j < 30 ==> keys[i] != keys[j]
  {
    var keys := WideDocument();
    assert forall i :: 0 <= i < 30 ==> |keys[i]| == i;
  }

  lemma ColumnsOfOne(keys: seq<string>)
    requires forall i, j :: 0 <= i < j < |keys| ==> keys[i] != keys[j]
    ensures Columns([keys], 0) == [] && Columns([keys], 1) == keys
  {
    var documents := [keys];
    assert documents[..1] == documents && documents[..0] == [];
    assert AllKeys([]) + keys == keys;
    assert AllKeys(documents) == keys;
    DistinctKept(keys);
  }

  /** One document with 30 keys: all of them become columns. */
  lemma WideExample()
    ensures Scans([WideDocument()], 1) && |Columns([WideDocument()], 1)| == 30
  {
    WideKeys();
    ColumnsOfOne(WideDocument());
  }

  /** The scan after `i` documents, while it goes on. */
  ghost predicate Scanning(documents: seq<seq<string>>, i: nat, order: seq<string>) {
    && i <= |documents| && i <= SCAN_CAP && order == Columns(documents, i)
    && (forall j :: 0 <= j <= i ==> |Columns(documents, j)| < COLUMN_STOP)
  }

  /** The scan when it ends after `m` documents: the last of them bounds by how much the limit is exceeded. */
  ghost predicate Scanned(documents: seq<seq<string>>, m: nat, order: seq<string>) {
    Scans(documents, m) && order == Columns(documents, m) && (m > 0 ==> |order| < 24 + |documents[m - 1]|)
  }

  lemma ScanOne(documents: seq<seq<string>>, i: nat, order: seq<string>, next: seq<string>)
    requires Scanning(documents, i, order) && i < |documents| && i < SCAN_CAP
    requires next == Columns(documents, i + 1) && |next| <= |order| + |documents[i]|
    ensures if |next| >= COLUMN_STOP then Scanned(documents, i + 1, next) else Scanning(documents, i + 1, next)
    ensures |next| < COLUMN_STOP + |documents[i]|
  {
  }

  /** Documents are given by their keys in order. */
  method DiscoverColumns(documents: seq<seq<string>>) returns (order: seq<string>)
    ensures exists m: nat :: Scanned(documents, m, order)
    ensures |order| <= 24 <==> forall i :: 0 <= i < |documents| && i < 60 ==> !JumpsOver(documents, i)
  {
    var seen: set<string> := {};
    order := [];
    var scanCap := MinI(|documents|, SCAN_CAP);
    var i := 0;
    while i < scanCap
      invariant 0 <= i <= scanCap && forall k :: k in seen <==> k in order
      invariant Scanning(documents, i, order) && (i > 0 ==> |order| < COLUMN_STOP + |documents[i - 1]|)
    {
      ghost var before := order;
      seen, order := AddDocument(documents, i, seen, order);
      ScanOne(documents, i, before, order);
      if |order| >= COLUMN_STOP {
        LimitKeptIff(documents, i + 1);
        return;
      }
      i := i + 1;
    }
    assert Scanned(documents, i, order);
    LimitKeptIff(documents, i);
  }

  method AddDocument(documents: seq<seq<string>>, i: nat, seen0: set<string>, order0: seq<string>)
    returns (seen: set<string>, order: seq<string>)
    requires i < |documents| && order0 == Columns(documents, i) && forall k :: k in seen0 <==> k in order0
    ensures order == Columns(documents, i + 1) && forall k :: k in seen <==> k in order
    ensures |order| <= |order0| + |documents[i]|
  {
    ColumnsSnoc(documents, i);
    seen, order := AddKeys(documents[i], seen0, order0, AllKeys(documents[..i]));
  }

  /** The inner loop: the keys of one document. */
  method AddKeys(keys: seq<string>, seen0: set<string>, order0: seq<string>, ghost before: seq<string>)
    returns (seen: set<string>, order: seq<string>)
    requires order0 == Distinct(before) && forall k :: k in seen0 <==> k in order0
    ensures order == Distinct(before + keys) && forall k :: k in seen <==> k in order
    ensures |order| <= |order0| + |keys|
  {
    seen, order := seen0, order0;
    assert before + keys[..0] == before;
    for j := 0 to |keys|
      invariant order == Distinct(before + keys[..j]) && forall k :: k in seen <==> k in order
      invariant |order| <= |order0| + j
    {
      var k := keys[j];
      KeysSnoc(before, keys, j);
      if k !in seen {
        seen := seen + {k};
        order := order + [k];
      }
    }
    assert keys[..|keys|] == keys;
  }

  lemma KeysSnoc(before: seq<string>, keys: seq<string>, j: nat)
    requires j < |keys|
    ensures Distinct(before + keys[..j + 1])
      == if keys[j] in Distinct(before + keys[..j]) then Distinct(before + keys[..j])
          else Distinct(before + keys[..j]) + [keys[j]]
  {
    DistinctSnoc(before + keys[..j], keys[j]);
    assert before + keys[..j + 1] == before + keys[..j] + [keys[j]];
  }

  lemma ColumnsSnoc(documents: seq<seq<string>>, i: nat)
    requires i < |documents|
    ensures Columns(documents, i + 1) == Distinct(AllKeys(documents[..i]) + documents[i])
  {
    assert documents[..i + 1][..i] == documents[..i];
  }

  // ----- Selection -----

  /** The ids of the mounted rows; row `i` of the window is row `start + i` of the list. */
  function WindowIds(ids: seq<string>, w: Window): set<string>
    requires 0 <= w.startIndex <= w.endIndex <= |ids|
  {
    set i | w.startIndex <= i < w.endIndex :: ids[i]
  }

  predicate AllSelected(ids: seq<string>, w: Window, selected: set<string>)
    requires 0 <= w.startIndex <= w.endIndex <= |ids|
  {
    w.startIndex < w.endIndex && WindowIds(ids, w) <= selected
  }

  /** The header box is ticked exactly when there are rows and all of them are selected. */
  lemma AllSelectedMeans(ids: seq<string>, w: Window, selected: set<string>)
    requires 0 <= w.startIndex <= w.endIndex <= |ids|
    ensures AllSelected(ids, w, selected) <==>
      w.endIndex - w.startIndex > 0 && forall i :: w.startIndex <= i < w.endIndex ==> ids[i] in selected
  {
    assert forall i :: w.startIndex <= i < w.endIndex ==> ids[i] in WindowIds(ids, w);
  }

  method ToggleAll(ids: seq<string>, w: Window, selected: set<string>) returns (next: set<string>)
    requires 0 <= w.startIndex <= w.endIndex <= |ids|
    ensures next == if WindowIds(ids, w) <= selected then selected - WindowIds(ids, w) else selected + WindowIds(ids, w)
    ensures w.startIndex < w.endIndex ==> AllSelected(ids, w, next) == !AllSelected(ids, w, selected)
    ensures next - WindowIds(ids, w) == selected - WindowIds(ids, w)
    ensures var every := forall i :: w.startIndex <= i < w.endIndex ==> ids[i] in selected;
      && (forall i :: w.startIndex <= i < w.endIndex ==> (ids[i] in next <==> !every))
      && (forall id :: id !in ids[w.startIndex..w.endIndex] ==> (id in next <==> id in selected))
  {
    next := selected;
    var rows := ids[w.startIndex..w.endIndex];
    var every := forall i :: 0 <= i < |rows| ==> rows[i] in next;
    assert every <==> WindowIds(ids, w) <= selected by {
      assert forall i :: 0 <= i < |rows| ==> rows[i] == ids[w.startIndex + i] && rows[i] in WindowIds(ids, w);
      assert forall i :: w.startIndex <= i < w.endIndex ==> ids[i] == rows[i - w.startIndex];
    }
    for i := 0 to |rows|
      invariant next == if every then selected - (set j | 0 <= j < i :: rows[j])
        else selected + (set j | 0 <= j < i :: rows[j])
    {
      if every {
        next := next - {rows[i]};
      } else {
        next := next + {rows[i]};
      }
    }
    assert (set j | 0 <= j < |rows| :: rows[j]) == WindowIds(ids, w) by {
      assert forall i :: w.startIndex <= i < w.endIndex ==> ids[i] == rows[i - w.startIndex];
    }
    if w.startIndex < w.endIndex {
      assert ids[w.startIndex] in WindowIds(ids, w);
    }
    assert forall i :: w.startIndex <= i < w.endIndex ==> ids[i] in WindowIds(ids, w);
    assert forall i :: w.startIndex <= i < w.endIndex ==> ids[i] in ids[w.startIndex..w.endIndex];
  }
}
