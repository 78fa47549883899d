/** Filtering, mapping and searching sequences, with the laws the loops over them need. */
module Lists {
  import opened Text

  predicate All<T>(p: T -> bool, items: seq<T>) {
    items == [] || (p(items[0]) && All(p, items[1..]))
  }

  predicate Any<T>(p: T -> bool, items: seq<T>) {
    items != [] && (p(items[0]) || Any(p, items[1..]))
  }

  function Filter<T>(keep: T -> bool, items: seq<T>): (r: seq<T>)
    ensures |r| <= |items|
  {
    if items == [] then []
    else (if keep(items[0]) then [items[0]] else []) + Filter(keep, items[1..])
  }

  function Present<T, U>(f: T -> Option<U>, items: seq<T>): (r: seq<U>)
    ensures |r| <= |items|
  {
    if items == [] then []
    else (if f(items[0]).Some? then [f(items[0]).value] else []) + Present(f, items[1..])
  }

  function Gather<T, U>(f: T -> seq<U>, items: seq<T>): seq<U> {
    if items == [] then [] else f(items[0]) + Gather(f, items[1..])
  }

  /** Going through the items from a state on, whether any step reports a change, and the state
      at the end. */
  function Steps<S, T>(step: (S, T) -> (bool, S), s: S, items: seq<T>): (bool, S)
    decreases |items|
  {
    if items == [] then (false, s)
    else
      var first := step(s, items[0]);
      var rest := Steps(step, first.1, items[1..]);
      (first.0 || rest.0, rest.1)
  }

  // ----- what they mean -----

  lemma {:induction false} AllMeans<T(!new)>(p: T -> bool, items: seq<T>)
    ensures All(p, items) <==> forall x :: x in items ==> p(x)
    decreases |items|
  {
    if items != [] {
      AllMeans(p, items[1..]);
      assert items == [items[0]] + items[1..];
    }
  }

  lemma {:induction false} AnyMeans<T(!new)>(p: T -> bool, items: seq<T>)
    ensures Any(p, items) <==> exists x :: x in items && p(x)
    decreases |items|
  {
    if items != [] {
      AnyMeans(p, items[1..]);
      assert items == [items[0]] + items[1..];
    }
  }

  lemma {:induction false} FilterMembers<T(!new)>(keep: T -> bool, items: seq<T>)
    ensures forall x :: x in Filter(keep, items) <==> x in items && keep(x)
    decreases |items|
  {
    if items != [] {
      FilterMembers(keep, items[1..]);
      assert items == [items[0]] + items[1..];
    }
  }

  lemma {:induction false} PresentMembers<T(!new), U(!new)>(f: T -> Option<U>, items: seq<T>)
    ensures forall y :: y in Present(f, items) <==> exists x :: x in items && f(x) == Some(y)
    decreases |items|
  {
    if items != [] {
      PresentMembers(f, items[1..]);
      assert items == [items[0]] + items[1..];
    }
  }

  // ----- one more item at the end -----

  lemma {:induction false} AllNext<T>(p: T -> bool, items: seq<T>, x: T)
    ensures All(p, items + [x]) <==> All(p, items) && p(x)
    decreases |items|
  {
    if items == [] {
      assert items + [x] == [x] && [x][1..] == [];
    } else {
      AllNext(p, items[1..], x);
      assert (items + [x])[1..] == items[1..] + [x];
    }
  }

  lemma {:induction false} AnyNext<T>(p: T -> bool, items: seq<T>, x: T)
    ensures Any(p, items + [x]) <==> Any(p, items) || p(x)
    decreases |items|
  {
    if items == [] {
      assert items + [x] == [x] && [x][1..] == [];
    } else {
      AnyNext(p, items[1..], x);
      assert (items + [x])[1..] == items[1..] + [x];
    }
  }

  lemma {:induction false} FilterNext<T>(keep: T -> bool, items: seq<T>, x: T)
    ensures Filter(keep, items + [x]) == Filter(keep, items) + (if keep(x) then [x] else [])
    decreases |items|
  {
    if items == [] {
      assert items + [x] == [x] && [x][1..] == [];
    } else {
      FilterNext(keep, items[1..], x);
      assert (items + [x])[1..] == items[1..] + [x];
    }
  }

  lemma {:induction false} PresentNext<T, U>(f: T -> Option<U>, items: seq<T>, x: T)
    ensures Present(f, items + [x]) == Present(f, items) + (if f(x).Some? then [f(x).value] else [])
    decreases |items|
  {
    if items == [] {
      assert items + [x] == [x] && [x][1..] == [];
    } else {
      PresentNext(f, items[1..], x);
      assert (items + [x])[1..] == items[1..] + [x];
    }
  }

  lemma {:induction false} GatherNext<T, U>(f: T -> seq<U>, items: seq<T>, x: T)
    ensures Gather(f, items + [x]) == Gather(f, items) + f(x)
    decreases |items|
  {
    if items == [] {
      assert items + [x] == [x] && [x][1..] == [];
    } else {
      GatherNext(f, items[1..], x);
      assert (items + [x])[1..] == items[1..] + [x];
    }
  }

  lemma {:induction false} StepsNext<S, T>(step: (S, T) -> (bool, S), s: S, items: seq<T>, x: T)
    ensures var before := Steps(step, s, items);
      Steps(step, s, items + [x]) == (before.0 || step(before.1, x).0, step(before.1, x).1)
    decreases |items|
  {
    if items == [] {
      assert items + [x] == [x] && [x][1..] == [];
    } else {
      StepsNext(step, step(s, items[0]).1, items[1..], x);
      assert (items + [x])[1..] == items[1..] + [x];
    }
  }

  // ----- one after the other -----

  lemma {:induction false} FilterAllExactly<T>(keep: T -> bool, items: seq<T>)
    ensures |Filter(keep, items)| == |items| <==> All(keep, items)
    ensures All(keep, items) <==> Filter(keep, items) == items
    decreases |items|
  {
    if items != [] {
      FilterAllExactly(keep, items[1..]);
      assert items == [items[0]] + items[1..];
    }
  }

  lemma {:induction false} PresentAllExactly<T>(f: T -> Option<T>, fixed: T -> bool, items: seq<T>)
    requires forall x :: x in items ==> fixed(x) == (f(x) == Some(x))
    ensures Present(f, items) == items <==> All(fixed, items)
    decreases |items|
  {
    if items != [] {
      var head, rest := items[0], items[1..];
      PresentAllExactly(f, fixed, rest);
      assert items == [head] + rest;
      assert head in items;
      if Present(f, items) == items {
        assert f(head).Some?;
        assert Present(f, items)[1..] == Present(f, rest);
        assert Present(f, items)[0] == f(head).value;
      }
    }
  }

  lemma {:induction false} FilterAll<T(!new)>(keep: T -> bool, p: T -> bool, items: seq<T>)
    requires forall x :: keep(x) ==> p(x)
    ensures All(p, Filter(keep, items))
    decreases |items|
  {
    if items != [] {
      var tail := Filter(keep, items[1..]);
      FilterAll(keep, p, items[1..]);
      assert ([items[0]] + tail)[1..] == tail;
      assert Filter(keep, items) == if keep(items[0]) then [items[0]] + tail else tail;
    }
  }

  lemma {:induction false} PresentAll<T(!new), U>(f: T -> Option<U>, p: U -> bool, items: seq<T>)
    requires forall x :: f(x).Some? ==> p(f(x).value)
    ensures All(p, Present(f, items))
    decreases |items|
  {
    if items != [] {
      var tail := Present(f, items[1..]);
      PresentAll(f, p, items[1..]);
      if f(items[0]).Some? {
        assert ([f(items[0]).value] + tail)[1..] == tail;
      } else {
        assert Present(f, items) == tail;
      }
    }
  }

  lemma {:induction false} FilterAny<T(!new)>(keep: T -> bool, p: T -> bool, items: seq<T>)
    requires forall x :: p(x) ==> keep(x)
    ensures Any(p, Filter(keep, items)) <==> Any(p, items)
    decreases |items|
  {
    if items != [] {
      var tail := Filter(keep, items[1..]);
      FilterAny(keep, p, items[1..]);
      assert ([items[0]] + tail)[1..] == tail;
      assert Filter(keep, items) == if keep(items[0]) then [items[0]] + tail else tail;
    }
  }

  lemma {:induction false} PresentAny<T(!new)>(f: T -> Option<T>, p: T -> bool, items: seq<T>)
    requires forall x :: (f(x).Some? && p(f(x).value)) <==> p(x)
    ensures Any(p, Present(f, items)) <==> Any(p, items)
    decreases |items|
  {
    if items != [] {
      var tail := Present(f, items[1..]);
      PresentAny(f, p, items[1..]);
      if f(items[0]).Some? {
        assert ([f(items[0]).value] + tail)[1..] == tail;
      } else {
        assert Present(f, items) == tail;
      }
    }
  }

  /** Gathering over a filtered list and over the list itself agree when the dropped items
      contribute nothing. */
  lemma {:induction false} GatherFiltered<T(!new), U>(f: T -> seq<U>, keep: T -> bool, items: seq<T>)
    requires forall x :: !keep(x) ==> f(x) == []
    ensures Gather(f, Filter(keep, items)) == Gather(f, items)
    decreases |items|
  {
    if items != [] {
      var tail := Filter(keep, items[1..]);
      GatherFiltered(f, keep, items[1..]);
      assert ([items[0]] + tail)[1..] == tail;
      if keep(items[0]) {
        assert Filter(keep, items) == [items[0]] + tail;
      } else {
        assert Filter(keep, items) == tail;
      }
    }
  }

  lemma {:induction false} GatherPresent<T(!new), U>(f: T -> seq<U>, g: T -> Option<T>, items: seq<T>)
    requires forall x :: (if g(x).Some? then f(g(x).value) else []) == f(x)
    ensures Gather(f, Present(g, items)) == Gather(f, items)
    decreases |items|
  {
    if items != [] {
      var tail := Present(g, items[1..]);
      GatherPresent(f, g, items[1..]);
      if g(items[0]).Some? {
        assert Present(g, items) == [g(items[0]).value] + tail;
        assert ([g(items[0]).value] + tail)[1..] == tail;
      } else {
        assert Present(g, items) == tail;
        assert f(items[0]) == [];
      }
    }
  }
}
