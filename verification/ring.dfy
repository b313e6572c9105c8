/**
 * The chat message log of cmd/chat/chat/chat.go: a fixed-capacity ring of text
 * slots, a write index and a revision counter that counts every message ever added.
 *
 * The class `Messages` keeps, as ghost state, the whole history of added messages;
 * its invariant says that the slots are exactly what `Fill` computes from that
 * history. `Replay` is the specification of `forEach`, and the lemmas at the end
 * say which part of the history a replay yields.
 */
module Ring {

  function Abs(x: int): nat
  {
    if x < 0 then -x else x
  }

  /** Go's `%` on `int`: the quotient is truncated toward zero, so the remainder
      takes the sign of the dividend. */
  function GoRem(a: int, b: int): (r: int)
    requires b != 0
    ensures Abs(r) < Abs(b)
    ensures a >= 0 ==> r >= 0
    ensures a <= 0 ==> r <= 0
    ensures Abs(a) % Abs(b) == Abs(r)
  {
    if a >= 0 then a % Abs(b) else -((-a) % Abs(b))
  }

  /** `a % l` is the unique remainder in [0, l): any other way of writing `a`
      as `l * q + r` with `r` in range gives the same quotient and remainder. */
  lemma ModUnique(a: int, l: int, q: int, r: int)
    requires l > 0 && a == l * q + r && 0 <= r < l
    ensures a / l == q && a % l == r
  {
    var q0, r0 := a / l, a % l;
    assert a == l * q0 + r0;
    MulDiff(l, q, q0);
    if q0 > q {
      MulAtLeast(l, q0 - q);
    } else if q0 < q {
      MulAtLeast(l, q - q0);
    }
  }

  lemma MulDiff(l: int, x: int, y: int)
    ensures l * x - l * y == l * (x - y)
  {
  }

  lemma {:induction false} MulAtLeast(l: int, k: int)
    requires l > 0 && k >= 1
    ensures l * k >= l
    decreases k
  {
    if k > 1 {
      MulAtLeast(l, k - 1);
      assert l * k == l * (k - 1) + l;
    }
  }

  /** Adding a multiple of `l` does not change the remainder. */
  lemma ModShift(x: int, q: int, l: int)
    requires l > 0
    ensures (x + l * q) % l == x % l
  {
    assert x + l * q == l * (x / l + q) + x % l;
    ModUnique(x + l * q, l, x / l + q, x % l);
  }

  /** The remainder of a successor wraps from `l - 1` to `0`. */
  lemma ModSucc(n: int, l: int)
    requires l > 0
    ensures (n + 1) % l == if n % l + 1 == l then 0 else n % l + 1
  {
    if n % l + 1 == l {
      ModUnique(n + 1, l, n / l + 1, 0);
    } else {
      ModUnique(n + 1, l, n / l, n % l + 1);
    }
  }

  /** Two integers with the same remainder keep the same remainder when both are
      shifted by the same amount. */
  lemma ModCongruentShift(p: int, q: int, t: int, l: int)
    requires l > 0 && p % l == q % l
    ensures (p + t) % l == (q + t) % l
  {
    ModShift(p % l + t, p / l, l);
    ModShift(q % l + t, q / l, l);
    assert p + t == p % l + t + l * (p / l);
    assert q + t == q % l + t + l * (q / l);
  }

  /** `fullModulo` (chat.go:54-57): Go's remainder, lifted into [0, length) by
      adding `length` and taking the remainder again. For a positive length it is
      the floor modulo: it lies in [0, length) and is congruent to `index`,
      negative `index` included. */
  function FullModulo(index: int, length: int): (r: int)
    requires length != 0
    ensures length > 0 ==> 0 <= r < length && r == index % length
  {
    var inner := GoRem(index, length);
    var outer := GoRem(inner + length, length);
    if length > 0 then
      FullModuloIsFloorMod(index, length, inner, outer);
      outer
    else
      outer
  }

  lemma FullModuloIsFloorMod(index: int, length: int, inner: int, outer: int)
    requires length > 0
    requires inner == GoRem(index, length) && outer == GoRem(inner + length, length)
    ensures outer == index % length
  {
    if index >= 0 {
      ModUnique(inner + length, length, 1, inner);
    } else {
      var g := (-index) % length;
      assert -index == length * ((-index) / length) + g;
      if g == 0 {
        ModUnique(inner + length, length, 1, 0);
        ModUnique(index, length, -((-index) / length), 0);
      } else {
        ModUnique(inner + length, length, 0, length - g);
        ModUnique(index, length, -((-index) / length) - 1, length - g);
      }
    }
  }

  /** Shifting the argument of `fullModulo` by the length gives the same slot. */
  lemma FullModuloPeriodic(i: int, l: int)
    requires l > 0
    ensures FullModulo(i + l, l) == FullModulo(i, l)
  {
    ModShift(i, 1, l);
  }

  /** The slots of a ring of `capacity` slots, initially all empty, after the
      messages of `history` have been added in order. */
  function Fill(history: seq<string>, capacity: nat): (slots: seq<string>)
    requires capacity > 0
    ensures |slots| == capacity
  {
    if history == [] then seq(capacity, _ => "")
    else
      var n := |history| - 1;
      Fill(history[..n], capacity)[n % capacity := history[n]]
  }

  /** The message added `d` steps before the latest one still sits in its slot
      while fewer than `capacity` messages have been added after it. */
  lemma {:induction false} FillRecent(history: seq<string>, capacity: nat, d: nat)
    requires capacity > 0 && d < |history| && d < capacity
    ensures Fill(history, capacity)[(|history| - 1 - d) % capacity] == history[|history| - 1 - d]
  {
    var n := |history| - 1;
    var prefix := history[..n];
    if d > 0 {
      FillRecent(prefix, capacity, d - 1);
      assert prefix[|prefix| - 1 - (d - 1)] == history[|history| - 1 - d];
      var r := n % capacity;
      if r - d >= 0 {
        ModUnique(n - d, capacity, n / capacity, r - d);
      } else {
        ModUnique(n - d, capacity, n / capacity - 1, r - d + capacity);
      }
    }
  }

  /** Slots that have never been written are still empty. */
  lemma {:induction false} FillUnwritten(history: seq<string>, capacity: nat, p: nat)
    requires |history| <= p < capacity
    ensures Fill(history, capacity)[p] == ""
  {
    if history != [] {
      var n := |history| - 1;
      FillUnwritten(history[..n], capacity, p);
      ModUnique(n, capacity, 0, n);
    }
  }

  /** The callbacks made by the loop of `forEach` (chat.go:65-73) from position
      `pos` for at most `count` steps; `WalkVisits` says which they are. */
  function Walk(slots: seq<string>, pos: int, count: nat): (visits: seq<(int, string)>)
    requires |slots| > 0
    ensures |visits| <= count
    ensures forall t :: 0 <= t < |visits| ==> visits[t].1 != ""
    decreases count
  {
    if count == 0 then []
    else
      var i := FullModulo(pos, |slots|);
      if slots[i] == "" then [] else [(i, slots[i])] + Walk(slots, pos + 1, count - 1)
  }

  /** Step `t` of a walk calls back with the slot `fullModulo(pos + t)` and its
      text, which is never empty; a walk that ends early has reached an empty slot. */
  lemma {:induction false} WalkVisits(slots: seq<string>, pos: int, count: nat)
    requires |slots| > 0
    ensures var visits := Walk(slots, pos, count);
      && (forall t :: 0 <= t < |visits| ==>
            visits[t].0 == FullModulo(pos + t, |slots|) && visits[t].1 == slots[visits[t].0] && visits[t].1 != "")
      && (|visits| < count ==> slots[FullModulo(pos + |visits|, |slots|)] == "")
    decreases count
  {
    if count > 0 && slots[FullModulo(pos, |slots|)] != "" {
      WalkVisits(slots, pos + 1, count - 1);
      var visits := Walk(slots, pos, count);
      var rest := Walk(slots, pos + 1, count - 1);
      assert visits == [visits[0]] + rest;
      forall t | 1 <= t < |visits|
        ensures visits[t].0 == FullModulo(pos + t, |slots|)
      {
        assert visits[t] == rest[t - 1];
        assert pos + 1 + (t - 1) == pos + t;
      }
    }
  }

  /** One step of a walk: stop at an empty slot, or make one callback and go on. */
  lemma {:induction false} WalkStep(slots: seq<string>, pos: int, count: nat)
    requires |slots| > 0 && count > 0
    ensures var i := FullModulo(pos, |slots|);
      Walk(slots, pos, count) == if slots[i] == "" then [] else [(i, slots[i])] + Walk(slots, pos + 1, count - 1)
  {
  }

  /** A walk begun at `start` and done up to `pos` ends where `pos` holds an
      empty slot. */
  lemma {:induction false} WalkStops(slots: seq<string>, start: int, n: nat, pos: int, done: seq<(int, string)>)
    requires |slots| > 0 && start <= pos < start + n
    requires done + Walk(slots, pos, start + n - pos) == Walk(slots, start, n)
    requires slots[FullModulo(pos, |slots|)] == ""
    ensures done == Walk(slots, start, n)
  {
    WalkStep(slots, pos, start + n - pos);
  }

  /** A walk begun at `start` and done up to `pos` makes its next callback at
      `pos` when that slot is not empty. */
  lemma {:induction false} WalkExtends(slots: seq<string>, start: int, n: nat, pos: int, done: seq<(int, string)>)
    requires |slots| > 0 && start <= pos < start + n
    requires done + Walk(slots, pos, start + n - pos) == Walk(slots, start, n)
    requires slots[FullModulo(pos, |slots|)] != ""
    ensures var i := FullModulo(pos, |slots|);
      (done + [(i, slots[i])]) + Walk(slots, pos + 1, start + n - (pos + 1)) == Walk(slots, start, n)
  {
    var k := start + n - pos;
    WalkStep(slots, pos, k);
    var i := FullModulo(pos, |slots|);
    var rest := Walk(slots, pos + 1, k - 1);
    assert done + ([(i, slots[i])] + rest) == (done + [(i, slots[i])]) + rest;
  }

  /** The amount `forEach` actually replays (chat.go:61): negative or oversized
      amounts become the capacity. */
  function Clamp(amount: int, length: nat): (n: nat)
    ensures n <= length
    ensures 0 <= amount <= length ==> n == amount
    ensures amount < 0 || amount > length ==> n == length
  {
    if amount < 0 || amount > length then length else amount
  }

  /** `forEach(amount)` (chat.go:59-74) on the ring `slots` with write index
      `index`: walk forward, with wraparound, from `fullModulo(index - amount)`. */
  function Replay(slots: seq<string>, index: int, amount: int): (visits: seq<(int, string)>)
    requires |slots| > 0
    ensures |visits| <= Clamp(amount, |slots|)
    ensures forall t :: 0 <= t < |visits| ==> visits[t].1 != ""
  {
    var n := Clamp(amount, |slots|);
    Walk(slots, FullModulo(index - n, |slots|), n)
  }

  /** The texts passed to the callback, in order. */
  function Texts(visits: seq<(int, string)>): (texts: seq<string>)
    ensures |texts| == |visits|
    ensures forall t :: 0 <= t < |visits| ==> texts[t] == visits[t].1
  {
    if visits == [] then [] else [visits[0].1] + Texts(visits[1..])
  }

  /** Walks that start at congruent positions make the same callbacks. */
  lemma {:induction false} WalkCongruent(slots: seq<string>, p: int, q: int, count: nat)
    requires |slots| > 0 && p % |slots| == q % |slots|
    ensures Walk(slots, p, count) == Walk(slots, q, count)
    decreases count
  {
    if count > 0 {
      ModCongruentShift(p, q, 1, |slots|);
      WalkCongruent(slots, p + 1, q + 1, count - 1);
    }
  }

  /** Walking the last `j` positions of a ring filled from `history` yields a
      prefix of the last `j` messages, and all of them exactly when none of them
      is the empty string; it stops at the first empty message, which is never
      passed on. */
  lemma {:induction false} WalkRecent(history: seq<string>, capacity: nat, start: nat, count: nat)
    requires capacity > 0 && start + count == |history| && count <= capacity
    ensures var texts := Texts(Walk(Fill(history, capacity), start, count));
      && texts <= history[start..]
      && (texts == history[start..] <==> "" !in history[start..])
      && "" !in texts
      && (|texts| < count ==> history[start + |texts|] == "")
  {
    var slots := Fill(history, capacity);
    var visits := Walk(slots, start, count);
    var texts := Texts(visits);
    var window := history[start..];
    WalkVisits(slots, start, count);
    forall t | 0 <= t < count
      ensures slots[FullModulo(start + t, capacity)] == window[t]
    {
      FillRecent(history, capacity, count - 1 - t);
    }
    assert texts == window[..|texts|];
    assert "" !in texts by {
      forall t | 0 <= t < |texts| ensures texts[t] != "" {
        assert texts[t] == visits[t].1;
      }
    }
    if |texts| < count {
      assert window[|texts|] == "";
      assert history[start + |texts|] == window[|texts|];
    } else {
      assert texts == window;
    }
  }

  /** What `forEach(revision - cursor)` yields on a ring holding `history`: a
      prefix of the last `min(revision - cursor, capacity)` messages, in the
      order they were added; the whole window exactly when it holds no empty
      message. Older messages are lost once more than `capacity` are pending. */
  lemma {:induction false} ReplayWindow(history: seq<string>, capacity: nat, cursor: nat)
    requires capacity > 0 && cursor <= |history|
    ensures var n := Clamp(|history| - cursor, capacity);
      var texts := Texts(Replay(Fill(history, capacity), |history| % capacity, |history| - cursor));
      && n == (if |history| - cursor <= capacity then |history| - cursor else capacity)
      && texts <= history[|history| - n..]
      && (texts == history[|history| - n..] <==> "" !in history[|history| - n..])
  {
    var n := Clamp(|history| - cursor, capacity);
    var slots := Fill(history, capacity);
    var from := |history| - n;
    ReplayStart(slots, capacity, |history|, |history| - cursor, n);
    WalkRecent(history, capacity, from, n);
    var window := history[from..];
    var texts := Texts(Walk(slots, from, n));
    assert Texts(Replay(slots, |history| % capacity, |history| - cursor)) == texts;
    assert texts <= window;
    assert texts == window <==> "" !in window;
  }

  /** The same replay passes on no empty message, and when it yields fewer
      than `min(revision - cursor, capacity)` texts, the next message of that
      window is the empty one it stopped at (the `break` of chat.go:69-71). */
  lemma {:induction false} ReplayStopsAtEmpty(history: seq<string>, capacity: nat, cursor: nat)
    requires capacity > 0 && cursor <= |history|
    ensures var n := Clamp(|history| - cursor, capacity);
      var texts := Texts(Replay(Fill(history, capacity), |history| % capacity, |history| - cursor));
      && "" !in texts
      && (|texts| < n ==> history[|history| - n + |texts|] == "")
  {
    var n := Clamp(|history| - cursor, capacity);
    var slots := Fill(history, capacity);
    var from := |history| - n;
    ReplayStart(slots, capacity, |history|, |history| - cursor, n);
    var texts := Texts(Walk(slots, from, n));
    assert Texts(Replay(slots, |history| % capacity, |history| - cursor)) == texts;
    WalkRecent(history, capacity, from, n);
    assert "" !in texts;
    assert |texts| < n ==> history[from + |texts|] == "";
  }

  /** A replay of `amount` messages, at most as many as were added, on a ring
      whose write index is `size % |slots|` calls back with the slots of the
      last `Clamp(amount)` positions written, oldest first. */
  lemma {:induction false} ReplayWindowSlots(slots: seq<string>, size: nat, amount: nat)
    requires |slots| > 0 && amount <= size
    ensures var n := Clamp(amount, |slots|);
      var visits := Replay(slots, size % |slots|, amount);
      forall t :: 0 <= t < |visits| ==> visits[t].0 == (size - n + t) % |slots|
  {
    var n := Clamp(amount, |slots|);
    var visits := Replay(slots, size % |slots|, amount);
    var walk := Walk(slots, size - n, n);
    ReplayStart(slots, |slots|, size, amount, n);
    WalkVisits(slots, size - n, n);
    forall t | 0 <= t < |visits|
      ensures visits[t].0 == (size - n + t) % |slots|
    {
      assert visits[t] == walk[t];
    }
  }

  /** A replay of `amount` slots, with `amount` at most the number of messages
      added, on a ring whose write index is `size % |slots|` walks the last
      `Clamp(amount)` positions. */
  lemma {:induction false} ReplayStart(slots: seq<string>, capacity: nat, size: nat, amount: nat, n: nat)
    requires |slots| == capacity > 0 && amount <= size && n == Clamp(amount, capacity)
    ensures Replay(slots, size % capacity, amount) == Walk(slots, size - n, n)
  {
    var start := FullModulo(size % capacity - n, capacity);
    ModShift(size % capacity - n, size / capacity, capacity);
    assert size % capacity - n + capacity * (size / capacity) == size - n;
    ModUnique(start, capacity, 0, start);
    WalkCongruent(slots, start, size - n, n);
  }

  /** A ring of capacity 3 after a, b, c, d: "a" has been overwritten, and a
      replay of all 4 messages yields only b, c, d. */
  lemma {:induction false} CapacityThreeBacklog(a: string, b: string, c: string, d: string)
    requires a != "" && b != "" && c != "" && d != ""
    ensures Texts(Replay(Fill([a, b, c, d], 3), 4 % 3, 4)) == [b, c, d]
  {
    var h := [a, b, c, d];
    var window := Texts(Replay(Fill(h, 3), |h| % 3, |h| - 0));
    ReplayWindow(h, 3, 0);
    assert Clamp(|h| - 0, 3) == 3;
    assert h[|h| - 3..] == [b, c, d];
    assert window == [b, c, d];
  }

  /** The same ring: a replay of 1 yields the newest message, d. */
  lemma {:induction false} CapacityThreeLatest(a: string, b: string, c: string, d: string)
    requires a != "" && b != "" && c != "" && d != ""
    ensures Texts(Replay(Fill([a, b, c, d], 3), 4 % 3, 1)) == [d]
  {
    var h := [a, b, c, d];
    ReplayWindow(h, 3, 3);
    assert h[|h| - 1..] == [d];
  }

  /** The message log `messages` of chat.go:34-38. */
  class Messages {
    const arr: array<string>
    var index: int
    var revision: nat
    /** Every message ever added, oldest first. */
    ghost var history: seq<string>

    ghost predicate Valid()
      reads this, arr
    {
      && arr.Length > 0
      && revision == |history|
      && index == |history| % arr.Length
      && arr[..] == Fill(history, arr.Length)
    }

    /** `makeMessages(size)` (chat.go:40-46): `size` empty slots, index 0 and
        revision 0. */
    constructor (size: int)
      requires size > 0
      ensures Valid() && fresh(arr)
      ensures arr.Length == size && arr[..] == seq(size, _ => "")
      ensures index == 0 && revision == 0 && history == []
    {
      arr := new string[size](_ => "");
      index := 0;
      revision := 0;
      history := [];
    }

    /** `add(s)` (chat.go:48-52): overwrite the slot at the write index, advance
        the index with wraparound and count one more revision. */
    method Add(s: string)
      requires Valid()
      modifies this, arr
      ensures Valid()
      ensures arr[..] == old(arr[..])[old(index) := s]
      ensures index == (old(index) + 1) % arr.Length
      ensures revision == old(revision) + 1
      ensures history == old(history) + [s]
    {
      ghost var before := history;
      var l := arr.Length;
      arr[index] := s;
      ModUnique(index, l, 0, index);
      ModSucc(|before|, l);
      ModSucc(index, l);
      index := GoRem(index + 1, l);
      revision := revision + 1;
      history := history + [s];
      assert history[..|history| - 1] == before;
      assert Fill(history, l) == Fill(before, l)[|before| % l := s];
    }

    /** `forEach(amount, cb)` (chat.go:59-74): the callbacks it makes, as
        (slot, text) pairs in call order. */
    method ForEach(amount: int) returns (visits: seq<(int, string)>)
      requires arr.Length > 0
      ensures visits == Replay(arr[..], index, amount)
    {
      ghost var slots := arr[..];
      var l := arr.Length;
      assert |slots| == l;
      var n := amount;
      if n < 0 || n > l {
        n := l;
      }
      var start := FullModulo(index - n, l);
      visits := [];
      var i := start;
      while i < start + n
        invariant start <= i <= start + n
        invariant visits + Walk(slots, i, start + n - i) == Walk(slots, start, n)
      {
        var slot := FullModulo(i, l);
        var item := arr[slot];
        if item == "" {
          WalkStops(slots, start, n, i, visits);
          break;
        }
        WalkExtends(slots, start, n, i, visits);
        visits := visits + [(slot, item)];
        i := i + 1;
      }
      assert Walk(slots, start, n) == Replay(slots, index, amount);
      assert visits == Walk(slots, start, n);
    }
  }
}
