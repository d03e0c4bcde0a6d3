/**
 `splitJsonItems`: a list of metadata items cut greedily into pages of bounded encoded size.
 */
module JsonPages {
  import opened Bytes
  import Records

  /** 512 KiB, for catalogs and maps alike. */
  const PAGE_TARGET: int := 524288

  function Flatten<T>(pages: seq<seq<T>>): seq<T> {
    if pages == [] then [] else Flatten(pages[..|pages| - 1]) + pages[|pages| - 1]
  }

  lemma FlattenSnoc<T>(pages: seq<seq<T>>, page: seq<T>)
    ensures Flatten(pages + [page]) == Flatten(pages) + page
  {
    assert (pages + [page])[..|pages|] == pages;
  }

  /** A page holds something, and fits the target unless it holds a single item. */
  predicate Fits<T>(encodedSize: seq<T> -> int, target: int, page: seq<T>) {
    page != [] && (|page| == 1 || encodedSize(page) <= target)
  }

  /** Nothing of the next page would have fitted on this one. */
  predicate Full<T>(encodedSize: seq<T> -> int, target: int, pages: seq<seq<T>>, next: seq<T>) {
    pages != [] && next != [] ==> encodedSize(pages[|pages| - 1] + [next[0]]) > target
  }

  predicate Greedy<T>(encodedSize: seq<T> -> int, target: int, pages: seq<seq<T>>) {
    forall i | 0 < i < |pages| :: Full(encodedSize, target, pages[..i], pages[i])
  }

  lemma GreedySnoc<T>(encodedSize: seq<T> -> int, target: int, pages: seq<seq<T>>, page: seq<T>)
    requires Greedy(encodedSize, target, pages) && Full(encodedSize, target, pages, page)
    ensures Greedy(encodedSize, target, pages + [page])
  {
    hide Full;
    var more := pages + [page];
    forall i | 0 < i < |more| ensures Full(encodedSize, target, more[..i], more[i]) {
      assert more[..i] == if i < |pages| then pages[..i] else pages;
    }
  }

  /**
   The pages, in order, hold exactly the items; each fits and is as full as it can be. Only an oversized FIRST item is refused
   here: a later one becomes a page of its own, whatever its size, and is refused when its record is made.
   */
  method SplitJsonItems<T>(items: seq<T>, encodedSize: seq<T> -> int, target: int) returns (r: Option<seq<seq<T>>>)
    requires target < Records.MAX_PAYLOAD
    ensures r.None? <==> items != [] && encodedSize([items[0]]) > Records.MAX_PAYLOAD
    ensures r.Some? ==> Flatten(r.value) == items && Greedy(encodedSize, target, r.value)
    ensures r.Some? ==> forall i | 0 <= i < |r.value| :: Fits(encodedSize, target, r.value[i])
  {
    hide Greedy, Full, Fits;
    var pages: seq<seq<T>> := [];
    var current: seq<T> := [];
    var i := 0;
    EmptyGreedy(encodedSize, target);
    while i < |items|
      invariant i <= |items| && Flatten(pages) + current == items[..i]
      invariant i == 0 <==> current == []
      invariant i == 0 ==> pages == []
      invariant i > 0 ==> encodedSize([items[0]]) <= Records.MAX_PAYLOAD
      invariant forall k | 0 <= k < |pages| :: Fits(encodedSize, target, pages[k])
      invariant current != [] ==> Fits(encodedSize, target, current)
      invariant Greedy(encodedSize, target, pages) && Full(encodedSize, target, pages, current)
    {
      var item := items[i];
      var candidate := current + [item];
      assert items[..i + 1] == items[..i] + [item];
      var size := encodedSize(candidate);
      if size > Records.MAX_PAYLOAD {
        if current == [] {
          assert candidate == [item];
          return None;
        }
        Turn(encodedSize, target, pages, current, item);
        pages := pages + [current];
        current := [item];
      } else if current != [] && size > target {
        Turn(encodedSize, target, pages, current, item);
        pages := pages + [current];
        current := [item];
      } else {
        Grow(encodedSize, target, pages, current, item);
        current := candidate;
      }
      i := i + 1;
    }
    assert items[..i] == items;
    if current != [] {
      FlattenSnoc(pages, current);
      GreedySnoc(encodedSize, target, pages, current);
      pages := pages + [current];
    }
    return Some(pages);
  }

  lemma EmptyGreedy<T>(encodedSize: seq<T> -> int, target: int)
    ensures Greedy(encodedSize, target, []) && Full(encodedSize, target, [], [])
  {
  }

  lemma Turn<T>(encodedSize: seq<T> -> int, target: int, pages: seq<seq<T>>, current: seq<T>, item: T)
    requires Greedy(encodedSize, target, pages) && Full(encodedSize, target, pages, current) && current != []
    requires encodedSize(current + [item]) > target
    ensures Greedy(encodedSize, target, pages + [current]) && Full(encodedSize, target, pages + [current], [item])
    ensures Fits(encodedSize, target, [item]) && Flatten(pages + [current]) == Flatten(pages) + current
  {
    hide Greedy;
    GreedySnoc(encodedSize, target, pages, current);
    FlattenSnoc(pages, current);
  }

  lemma Grow<T>(encodedSize: seq<T> -> int, target: int, pages: seq<seq<T>>, current: seq<T>, item: T)
    requires Full(encodedSize, target, pages, current) && (current == [] ==> pages == []) && (current != [] ==> encodedSize(current + [item]) <= target)
    ensures Fits(encodedSize, target, current + [item]) && Full(encodedSize, target, pages, current + [item])
  {
  }
}
