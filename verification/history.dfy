/** The bounded generation history: most recent first, at most five
    entries. Entries are stored as persisted, so the type is a free string
    and the timestamp and colours are opaque strings. */
module History {

  datatype Colors = Colors(foreground: string, background: string)

  /** One recorded generation: the type key, the collected field values,
      the colours and the ISO-8601 timestamp (an input here, not a clock read). */
  datatype Entry = Entry(typeName: string, data: map<string, string>, colors: Colors, timestamp: string)

  const Capacity: nat := 5

  predicate Bounded(h: seq<Entry>) {
    |h| <= Capacity
  }

  function Min(a: int, b: int): int {
    if a <= b then a else b
  }

  /** `addToHistory`: unshift, then one pop when the list has grown past five.
      The new entry comes first, the old entries follow in their order with at
      most the last one dropped, and a bounded list stays bounded. */
  function AddToHistory(h: seq<Entry>, x: Entry): (r: seq<Entry>)
    ensures |r| >= 1 && r[0] == x
    ensures r[1..] <= h
    ensures |r| == if |h| < Capacity then |h| + 1 else |h|
    ensures Bounded(h) ==> r == [x] + h[..Min(|h|, Capacity - 1)]
    ensures Bounded(h) ==> Bounded(r)
  {
    var u := [x] + h;
    if |u| > Capacity then u[..|u| - 1] else u
  }

  /** `deleteHistoryItem`, i.e. `splice(index, 1)`: the entry at `index` is
      removed and the rest close up in order; an index past the end removes
      nothing and is not an error. */
  function DeleteHistoryItem(h: seq<Entry>, index: nat): (r: seq<Entry>)
    ensures index < |h| ==> |r| == |h| - 1 && r[..index] == h[..index] && r[index..] == h[index + 1..]
    ensures index >= |h| ==> r == h
    ensures Bounded(h) ==> Bounded(r)
  {
    if index < |h| then h[..index] + h[index + 1..] else h
  }

  /** Deleting removes exactly one occurrence of the entry at `index` and
      nothing else. */
  lemma DeleteRemovesOneEntry(h: seq<Entry>, index: nat)
    requires index < |h|
    ensures multiset(DeleteHistoryItem(h, index)) + multiset{h[index]} == multiset(h)
  {
    assert h == h[..index] + [h[index]] + h[index + 1..];
  }

  /** `clearHistory`: the history becomes empty. */
  function ClearHistory(): (r: seq<Entry>)
    ensures |r| == 0 && Bounded(r)
  {
    []
  }

  /** Records `xs` one after another, oldest first. */
  function RecordAll(h: seq<Entry>, xs: seq<Entry>): seq<Entry>
    decreases |xs|
  {
    if |xs| == 0 then h else RecordAll(AddToHistory(h, xs[0]), xs[1..])
  }

  function Reverse(xs: seq<Entry>): (r: seq<Entry>)
    ensures |r| == |xs|
    ensures forall i :: 0 <= i < |xs| ==> r[i] == xs[|xs| - 1 - i]
  {
    if |xs| == 0 then [] else Reverse(xs[1..]) + [xs[0]]
  }

  /** Starting from a bounded history, recording any number of entries keeps
      the five most recent of all of them, newest first: the new ones in
      reverse order of recording, followed by the old ones. */
  lemma {:induction false} RecordAllKeepsNewest(h: seq<Entry>, xs: seq<Entry>)
    requires Bounded(h)
    ensures RecordAll(h, xs) == (Reverse(xs) + h)[..Min(Capacity, |xs| + |h|)]
    decreases |xs|
  {
    if |xs| > 0 {
      var h' := AddToHistory(h, xs[0]);
      RecordAllKeepsNewest(h', xs[1..]);
      var n := Min(Capacity, |xs| + |h|);
      var a := Reverse(xs[1..]);
      assert Reverse(xs) == a + [xs[0]];
      assert |h'| == Min(Capacity, |h| + 1);
      assert h' == ([xs[0]] + h)[..|h'|];
      var lhs := (a + h')[..n];
      var rhs := (a + [xs[0]] + h)[..n];
      assert |lhs| == |rhs| == n;
      forall i | 0 <= i < n
        ensures lhs[i] == rhs[i]
      {
        if i < |a| {
        } else {
          assert lhs[i] == h'[i - |a|];
          assert rhs[i] == ([xs[0]] + h)[i - |a|];
        }
      }
    }
  }

  /** Six recordings into an empty history keep the last five, newest
      first; the first one is evicted. */
  lemma SixRecordingsKeepFive(e1: Entry, e2: Entry, e3: Entry, e4: Entry, e5: Entry, e6: Entry)
    ensures RecordAll([], [e1, e2, e3, e4, e5, e6]) == [e6, e5, e4, e3, e2]
  {
    RecordAllKeepsNewest([], [e1, e2, e3, e4, e5, e6]);
  }
}
