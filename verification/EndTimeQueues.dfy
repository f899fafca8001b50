// The min-heap of call end times that both schedulers keep: a
// std::priority_queue ordered by std::greater, represented by the ascending
// sequence of its entries.
module EndTimeQueues {

  ghost predicate Nondecreasing(s: seq<int>) {
    forall i, j :: 0 <= i <= j < |s| ==> s[i] <= s[j]
  }

  function Insert(h: seq<int>, e: int): (r: seq<int>)
    ensures |r| == |h| + 1
  {
    if h == [] || e < h[0] then [e] + h else [h[0]] + Insert(h[1..], e)
  }

  // Insertion keeps the order and adds one entry to the bag of entries.
  lemma {:induction false} InsertSorted(h: seq<int>, e: int)
    requires Nondecreasing(h)
    ensures Nondecreasing(Insert(h, e))
    ensures Insert(h, e)[0] == if h == [] || e < h[0] then e else h[0]
  {
    if h != [] && e >= h[0] {
      InsertSorted(h[1..], e);
      AddLeast(h[0], Insert(h[1..], e));
    } else if h != [] {
      AddLeast(e, h);
    }
  }

  lemma AddLeast(e: int, h: seq<int>)
    requires Nondecreasing(h) && (h != [] ==> e <= h[0])
    ensures Nondecreasing([e] + h)
  {
    forall j | 0 <= j < |h| ensures e <= h[j] {
      assert h[0] <= h[j];
    }
  }

  lemma {:induction false} InsertAdds(h: seq<int>, e: int)
    ensures multiset(Insert(h, e)) == multiset(h) + multiset{e}
  {
    if h != [] && e >= h[0] {
      InsertAdds(h[1..], e);
      assert h == [h[0]] + h[1..];
    }
  }

  lemma {:induction false} InsertLast(h: seq<int>, e: int)
    requires forall i :: 0 <= i < |h| ==> h[i] <= e
    ensures Insert(h, e) == h + [e]
  {
    if h != [] {
      InsertLast(h[1..], e);
      assert h == [h[0]] + h[1..];
    }
  }

  // What is left when minima are popped as long as they are at most `now`.
  function DropEnded(h: seq<int>, now: int): seq<int> {
    if h != [] && h[0] <= now then DropEnded(h[1..], now) else h
  }

  // Exactly the entries above `now` are left, in order.
  lemma {:induction false} DropEndedKeeps(h: seq<int>, now: int) returns (cut: nat)
    requires Nondecreasing(h)
    ensures cut <= |h| && DropEnded(h, now) == h[cut..]
    ensures forall i :: 0 <= i < |h| ==> (h[i] <= now <==> i < cut)
  {
    if h == [] || h[0] > now {
      cut := 0;
    } else {
      var rest := DropEndedKeeps(h[1..], now);
      cut := rest + 1;
      assert forall i :: 0 < i < |h| ==> h[i] == h[1..][i - 1];
    }
  }

  class EndTimeQueue {
    var items: seq<int>

    ghost predicate Valid()
      reads this
    {
      Nondecreasing(items)
    }

    constructor ()
      ensures Valid() && items == []
    {
      items := [];
    }

    function Top(): (least: int)
      requires Valid() && items != []
      reads this
      ensures least in items && forall e <- items :: least <= e
    {
      items[0]
    }

    method Pop()
      requires Valid() && items != []
      modifies this
      ensures Valid() && items == old(items)[1..]
      ensures multiset(items) == multiset(old(items)) - multiset{old(Top())}
    {
      assert items == [items[0]] + items[1..];
      items := items[1..];
    }

    method Push(e: int)
      requires Valid()
      modifies this
      ensures Valid() && items == Insert(old(items), e)
      ensures multiset(items) == multiset(old(items)) + multiset{e}
    {
      InsertSorted(items, e);
      InsertAdds(items, e);
      items := Insert(items, e);
    }

    // The pop loop that both schedulers run, once at the ready time of a call
    // and once more at the time the call is delayed to.
    method PopEnded(now: int)
      requires Valid()
      modifies this
      ensures Valid() && items == DropEnded(old(items), now)
    {
      while items != [] && Top() <= now
        invariant Valid() && DropEnded(items, now) == DropEnded(old(items), now)
        decreases |items|
      {
        Pop();
      }
    }
  }
}
