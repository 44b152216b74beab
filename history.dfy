// The bounded history log: entries newest first, at most twenty of them.

module History {

  /** One calculation: the expression as typed, the formatted result and
      the time it was recorded (milliseconds, supplied by the caller). */
  datatype Entry = Entry(expression: string, result: string, time: int)

  /** How many entries the log keeps. */
  const MaxEntries: nat := 20

  function Min(a: int, b: int): int {
    if a <= b then a else b
  }

  /** The log after recording `e`: `e` goes in front and, when that
      makes the log longer than the bound, the last (oldest) entry is
      dropped. Older entries keep their order and are never edited. */
  function Pushed(h: seq<Entry>, e: Entry): (r: seq<Entry>)
    ensures |r| == if |h| < MaxEntries then |h| + 1 else |h|
    ensures r[0] == e
    ensures r[1..] == h[..|r| - 1]
  {
    var grown := [e] + h;
    if |grown| > MaxEntries then grown[..|grown| - 1] else grown
  }

  /** The log after recording `es[0]`, then `es[1]`, and so on. */
  function PushedAll(h: seq<Entry>, es: seq<Entry>): seq<Entry> {
    if es == [] then h else Pushed(PushedAll(h, es[..|es| - 1]), es[|es| - 1])
  }

  function Reversed(es: seq<Entry>): (r: seq<Entry>)
    ensures |r| == |es|
  {
    if es == [] then [] else [es[|es| - 1]] + Reversed(es[..|es| - 1])
  }

  /** Recording a series of entries leaves the newest twenty of all the
      entries, newest first: the series in reverse, then the old log,
      cut to the bound. */
  lemma {:induction false} PushedAllKeepsNewest(h: seq<Entry>, es: seq<Entry>)
    requires |h| <= MaxEntries
    ensures PushedAll(h, es) == (Reversed(es) + h)[..Min(|es| + |h|, MaxEntries)]
  {
    if es != [] {
      var init, e := es[..|es| - 1], es[|es| - 1];
      PushedAllKeepsNewest(h, init);
      var before := PushedAll(h, init);
      var all := Reversed(init) + h;
      var m := Min(|init| + |h|, MaxEntries);
      assert before == all[..m];
      var after := Pushed(before, e);
      var n := Min(|es| + |h|, MaxEntries);
      assert |after| == n;
      assert Reversed(es) + h == [e] + all;
      forall i | 0 <= i < n ensures after[i] == ([e] + all)[i] {
        if i > 0 {
          assert after[i] == after[1..][i - 1];
        }
      }
    }
  }

  /** Recording at least twenty entries, from any starting log, leaves
      exactly the last twenty recorded, newest first. */
  lemma PushedManyKeepsLastTwenty(h: seq<Entry>, es: seq<Entry>)
    requires |h| <= MaxEntries
    requires |es| >= MaxEntries
    ensures |PushedAll(h, es)| == MaxEntries
    ensures PushedAll(h, es) == Reversed(es[|es| - MaxEntries..])
  {
    PushedAllKeepsNewest(h, es);
    ReversedPrefix(es, MaxEntries);
    assert (Reversed(es) + h)[..MaxEntries] == Reversed(es)[..MaxEntries];
  }

  /** The first `k` entries of a reversed series are its last `k`
      entries, reversed. */
  lemma {:induction false} ReversedPrefix(es: seq<Entry>, k: nat)
    requires k <= |es|
    ensures Reversed(es)[..k] == Reversed(es[|es| - k..])
  {
    if k > 0 {
      var init := es[..|es| - 1];
      ReversedPrefix(init, k - 1);
      var tail := es[|es| - k..];
      assert tail[..|tail| - 1] == init[|init| - (k - 1)..];
      assert tail[|tail| - 1] == es[|es| - 1];
      assert Reversed(es)[..k] == [es[|es| - 1]] + Reversed(init)[..k - 1];
    }
  }
}
