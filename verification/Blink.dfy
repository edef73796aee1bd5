/**
  The blinking characters of the fish program: a linked list threaded through a pool of 2000
  slots, in which a slot is free when its location is zero, and a clock tick that counts every
  entry down and flips it between its two characters.
 */
module Blink {

  const SLOTS := 80 * 25
  const WORD := 0x1_0000

  // What one entry says; lengths and countdown are 16-bit words.
  datatype Blinker = Blinker(
    location: int, onChar: int, offChar: int, onLength: int, offLength: int, countdown: int, status: int)

  const ZERO := Blinker(0, 0, 0, 0, 0, 0, 0)

  ghost predicate IsWord(w: int) {
    0 <= w < WORD
  }

  predicate On(b: Blinker) {
    b.status % 2 == 1
  }

  function Char(b: Blinker): int {
    if On(b) then b.onChar else b.offChar
  }

  /** A 16-bit decrement. */
  function Dec(w: int): int {
    if w == 0 then WORD - 1 else w - 1
  }

  /** A 16-bit word that is positive as a signed number. */
  predicate Positive(w: int) {
    0 < w < WORD / 2
  }

  function Flipped(b: Blinker): Blinker {
    if On(b) then b.(countdown := b.offLength, status := b.status - 1)
    else b.(countdown := b.onLength, status := b.status + 1)
  }

  predicate Flips(b: Blinker) {
    !Positive(Dec(b.countdown))
  }

  function TickOne(b: Blinker): Blinker {
    if Flips(b) then Flipped(b) else b.(countdown := Dec(b.countdown))
  }

  /** An entry as it is when added. */
  function Started(b: Blinker): Blinker {
    b.(status := 1, countdown := b.onLength)
  }

  // ----- one entry over time

  ghost function After(b: Blinker, n: nat): Blinker {
    if n == 0 then Started(b) else TickOne(After(b, n - 1))
  }

  ghost predicate Sane(b: Blinker) {
    0 < b.onLength <= WORD / 2 && 0 < b.offLength <= WORD / 2
  }

  lemma ModStep(n: nat, m: int)
    requires 0 < m
    ensures (n + 1) % m == if n % m == m - 1 then 0 else n % m + 1
  {
    var q, r := n / m, n % m;
    assert n == q * m + r;
    if r == m - 1 {
      assert n + 1 == (q + 1) * m + 0;
      DivModUnique(n + 1, m, q + 1, 0);
    } else {
      DivModUnique(n + 1, m, q, r + 1);
    }
  }

  lemma DivModUnique(n: int, m: int, q: int, r: int)
    requires 0 <= r < m && n == q * m + r
    ensures n % m == r
  {
    var d := n / m - q;
    assert n % m == r - d * m;
    assert d > 0 ==> d * m >= m;
    assert d < 0 ==> d * m <= -m;
  }

  lemma {:induction false} Cycle(b: Blinker, n: nat)
    requires Sane(b)
    ensures var a, m := b.onLength, n % (b.onLength + b.offLength);
            After(b, n) == b.(status := if m < a then 1 else 0,
                              countdown := if m < a then a - m else a + b.offLength - m)
  {
    if n > 0 {
      Cycle(b, n - 1);
      ModStep(n - 1, b.onLength + b.offLength);
    } else {
      DivModUnique(0, b.onLength + b.offLength, 0, 0);
    }
  }

  ghost predicate OnInStep(b: Blinker, n: nat)
    requires b.onLength + b.offLength > 0
  {
    On(After(b, n)) <==> n % (b.onLength + b.offLength) < b.onLength
  }

  /** An entry whose lengths are out of range is wrong at its first tick out of step. */
  lemma OutOfStep(b: Blinker) returns (n: nat)
    requires IsWord(b.onLength) && IsWord(b.offLength) && b.onLength + b.offLength > 0 && !Sane(b)
    ensures !OnInStep(b, n)
  {
    var a, m := b.onLength, b.onLength + b.offLength;
    if a == 0 {
      DivModUnique(0, m, 0, 0);
      n := 0;
    } else if a > WORD / 2 {
      DivModUnique(1, m, 0, 1);
      assert After(b, 1) == TickOne(After(b, 0));
      n := 1;
    } else {
      OnAtFirst(b, a - 1);
      assert After(b, a) == TickOne(After(b, a - 1));
      if b.offLength == 0 {
        DivModUnique(a, m, 1, 0);
        n := a;
      } else {
        DivModUnique(a + 1, m, 0, a + 1);
        assert After(b, a + 1) == TickOne(After(b, a));
        n := a + 1;
      }
    }
  }

  /** After n ticks an entry is on exactly when n mod (a + b) < a, its lengths being a and b, if and
      only if both lengths are between 1 and 32768. */
  lemma BlinksExactly(b: Blinker)
    requires IsWord(b.onLength) && IsWord(b.offLength) && b.onLength + b.offLength > 0
    ensures (forall n: nat :: OnInStep(b, n)) <==> Sane(b)
  {
    if Sane(b) {
      forall n: nat
        ensures OnInStep(b, n)
      {
        Cycle(b, n);
      }
    } else {
      var n := OutOfStep(b);
    }
  }

  lemma {:induction false} OnAtFirst(b: Blinker, n: nat)
    requires n < b.onLength <= WORD / 2
    ensures After(b, n) == b.(status := 1, countdown := b.onLength - n)
  {
    if n > 0 { OnAtFirst(b, n - 1); }
  }

  // ----- the list

  datatype Event = Add(b: Blinker) | Remove(location: int) | Tick

  /** The first entry at the location from index `i` on, or -1. */
  function IndexOf(items: seq<Blinker>, location: int, i: nat): (k: int)
    ensures k == -1 || (i <= k < |items| && items[k].location == location)
    ensures forall j :: i <= j < (if k == -1 then |items| else k) ==> items[j].location != location
    decreases |items| - i
  {
    if i >= |items| then -1
    else if items[i].location == location then i
    else IndexOf(items, location, i + 1)
  }

  /** Removing takes out the first entry at the location and nothing else; where locations are distinct
      none is left there. */
  lemma RemoveTakesOne(items: seq<Blinker>, location: int)
    ensures var now := Next(items, Event.Remove(location));
            || ((forall j :: 0 <= j < |items| ==> items[j].location != location) && now == items)
            || exists k :: FirstAt(items, location, k) && now == items[..k] + items[k + 1..] && |now| == |items| - 1
    ensures Distinct(items) ==>
              var now := Next(items, Event.Remove(location));
              (forall j :: 0 <= j < |now| ==> now[j].location != location) && IndexOf(now, location, 0) == -1
  {
    var k := IndexOf(items, location, 0);
    if k != -1 { assert FirstAt(items, location, k); }
  }

  ghost predicate FirstAt(items: seq<Blinker>, location: int, k: int) {
    0 <= k < |items| && items[k].location == location && forall j :: 0 <= j < k ==> items[j].location != location
  }

  function Ticked(items: seq<Blinker>): seq<Blinker> {
    seq(|items|, i requires 0 <= i < |items| => TickOne(items[i]))
  }

  function Next(items: seq<Blinker>, e: Event): seq<Blinker> {
    match e
    case Add(b) => if b.location >= SLOTS || |items| >= SLOTS then items else [Started(b)] + items
    case Remove(location) =>
      var k := IndexOf(items, location, 0);
      if k == -1 then items else items[..k] + items[k + 1..]
    case Tick => Ticked(items)
  }

  ghost predicate Distinct(items: seq<Blinker>) {
    forall i, j :: 0 <= i < j < |items| ==> items[i].location != items[j].location
  }

  /** The one entry at a location. */
  ghost predicate Has(items: seq<Blinker>, b: Blinker) {
    exists k :: 0 <= k < |items| && items[k] == b
  }

  lemma DropKeeps(items: seq<Blinker>, r: int, b: Blinker)
    requires Distinct(items) && Has(items, b) && 0 <= r < |items| && items[r].location != b.location
    ensures Distinct(items[..r] + items[r + 1..]) && Has(items[..r] + items[r + 1..], b)
  {
    var k :| 0 <= k < |items| && items[k] == b;
    assert (items[..r] + items[r + 1..])[if k < r then k else k - 1] == b;
  }

  lemma TickedKeeps(items: seq<Blinker>, b: Blinker)
    requires Distinct(items) && Has(items, b)
    ensures Distinct(Ticked(items)) && Has(Ticked(items), TickOne(b))
  {
    var k :| 0 <= k < |items| && items[k] == b;
    assert Ticked(items)[k] == TickOne(b);
  }

  /** Adding at a free location and removing at another one leave an entry alone; a tick counts it. */
  lemma NextKeeps(items: seq<Blinker>, e: Event, b: Blinker)
    requires Distinct(items) && Has(items, b) && LeavesAlone(items, e, b.location)
    ensures Distinct(Next(items, e))
    ensures Has(Next(items, e), if e.Tick? then TickOne(b) else b)
  {
    match e
    case Add(_) =>
      if Next(items, e) != items {
        var k :| 0 <= k < |items| && items[k] == b;
        assert Next(items, e)[k + 1] == b;
      }
    case Remove(location) =>
      var r := IndexOf(items, location, 0);
      if r != -1 { DropKeeps(items, r, b); }
    case Tick => TickedKeeps(items, b);
  }

  ghost predicate LeavesAlone(items: seq<Blinker>, e: Event, location: int) {
    match e
    case Add(b) => IndexOf(items, b.location, 0) == -1
    case Remove(l) => l != location
    case Tick => true
  }

  ghost predicate IsRun(s: seq<seq<Blinker>>, es: seq<Event>) {
    |s| == |es| + 1 && forall i {:trigger es[i]} :: 0 <= i < |es| ==> s[i + 1] == Next(s[i], es[i])
  }

  ghost predicate NeverTouched(s: seq<seq<Blinker>>, es: seq<Event>, location: int) {
    |s| == |es| + 1 && forall i {:trigger es[i]} :: 0 <= i < |es| ==> LeavesAlone(s[i], es[i], location)
  }

  function Ticks(es: seq<Event>, n: nat): nat
    requires n <= |es|
  {
    if n == 0 then 0 else Ticks(es, n - 1) + if es[n - 1].Tick? then 1 else 0
  }

  /** An entry added, whatever else is added, removed and counted meanwhile, is after n ticks what
      n ticks alone make of it, as long as its own location is left alone. */
  lemma {:induction false} EntryOverRun(s: seq<seq<Blinker>>, es: seq<Event>, b: Blinker, n: nat)
    requires IsRun(s, es) && n <= |es| && Distinct(s[0]) && Has(s[0], Started(b))
    requires NeverTouched(s, es, b.location)
    ensures Distinct(s[n]) && Has(s[n], After(b, Ticks(es, n)))
  {
    hide Distinct, Has, Next, LeavesAlone, TickOne;
    if n > 0 {
      EntryOverRun(s, es, b, n - 1);
      AfterKeeps(b, Ticks(es, n - 1));
      assert LeavesAlone(s[n - 1], es[n - 1], b.location);
      NextKeeps(s[n - 1], es[n - 1], After(b, Ticks(es, n - 1)));
    }
  }

  lemma {:induction false} AfterKeeps(b: Blinker, n: nat)
    ensures After(b, n).location == b.location
  {
    if n > 0 { AfterKeeps(b, n - 1); }
  }

  // ----- the video memory

  ghost predicate OnScreen(v: seq<int>, items: seq<Blinker>) {
    && |v| == 2 * SLOTS && Located(items)
    && forall k {:trigger items[k]} :: 0 <= k < |items| ==> v[2 * items[k].location] == Char(items[k])
  }

  ghost predicate Located(items: seq<Blinker>) {
    forall k {:trigger items[k]} :: 0 <= k < |items| ==> 0 < items[k].location < SLOTS
  }

  /** What a tick pokes for the first `n` entries. */
  ghost function Poked(v: seq<int>, items: seq<Blinker>, n: nat): (w: seq<int>)
    requires |v| == 2 * SLOTS && Located(items) && n <= |items|
    ensures |w| == |v|
  {
    if n == 0 then v
    else
      var b := items[n - 1];
      if Flips(b) then Poked(v, items, n - 1)[2 * b.location := Char(TickOne(b))] else Poked(v, items, n - 1)
  }

  lemma {:induction false} PokedAt(v: seq<int>, items: seq<Blinker>, n: nat, k: nat)
    requires Distinct(items) && OnScreen(v, items) && n <= |items| && k < |items|
    ensures Poked(v, items, n)[2 * items[k].location] == if k < n then Char(TickOne(items[k])) else Char(items[k])
  {
    if n > 0 {
      PokedAt(v, items, n - 1, k);
      assert k < n - 1 ==> items[k].location != items[n - 1].location;
      assert n - 1 < k ==> items[n - 1].location != items[k].location;
    }
  }

  /** When no two entries share a location, after a tick the screen still shows each one's character. */
  lemma TickShows(v: seq<int>, items: seq<Blinker>)
    requires Distinct(items) && OnScreen(v, items)
    ensures Distinct(Ticked(items)) && OnScreen(Poked(v, items, |items|), Ticked(items))
  {
    forall k | 0 <= k < |items|
      ensures Poked(v, items, |items|)[2 * Ticked(items)[k].location] == Char(Ticked(items)[k])
    {
      assert items[k].location == Ticked(items)[k].location;
      PokedAt(v, items, |items|, k);
    }
    forall k | 0 <= k < |items|
      ensures 0 < Ticked(items)[k].location < SLOTS
    {
      assert items[k] == items[k];
    }
  }

  /** The video memory after an operation. */
  ghost function Video(v: seq<int>, items: seq<Blinker>, e: Event): (w: seq<int>)
    requires |v| == 2 * SLOTS && Located(items) && (e.Add? ==> 0 <= e.b.location)
    ensures |w| == |v|
  {
    match e
    case Add(b) => if b.location < SLOTS && |items| < SLOTS then v[2 * b.location := b.onChar] else v
    case Remove(_) => v
    case Tick => Poked(v, items, |items|)
  }

  /** As long as entries are added at locations that are not taken, every operation keeps: the
      screen shows each entry's current character. */
  lemma NextShows(v: seq<int>, items: seq<Blinker>, e: Event)
    requires Distinct(items) && OnScreen(v, items)
    requires e.Add? ==> 0 < e.b.location && IndexOf(items, e.b.location, 0) == -1
    ensures Distinct(Next(items, e)) && OnScreen(Video(v, items, e), Next(items, e))
  {
    match e
    case Add(b) =>
      if Next(items, e) != items { AddShows(v, items, b); }
    case Remove(location) =>
      var r := IndexOf(items, location, 0);
      if r != -1 { DropShows(v, items, r); }
    case Tick => TickShows(v, items);
  }

  lemma AddShows(v: seq<int>, items: seq<Blinker>, b: Blinker)
    requires Distinct(items) && OnScreen(v, items)
    requires 0 < b.location < SLOTS
    requires forall k {:trigger items[k]} :: 0 <= k < |items| ==> items[k].location != b.location
    ensures Distinct([Started(b)] + items) && OnScreen(v[2 * b.location := b.onChar], [Started(b)] + items)
  {
    var more := [Started(b)] + items;
    forall k | 0 <= k < |more|
      ensures 0 < more[k].location < SLOTS && v[2 * b.location := b.onChar][2 * more[k].location] == Char(more[k])
    {
      assert k > 0 ==> more[k] == items[k - 1];
    }
    forall i, j | 0 <= i < j < |more|
      ensures more[i].location != more[j].location
    {
      assert more[j] == items[j - 1] && (i > 0 ==> more[i] == items[i - 1]);
    }
  }

  lemma DropShows(v: seq<int>, items: seq<Blinker>, r: int)
    requires Distinct(items) && OnScreen(v, items) && 0 <= r < |items|
    ensures Distinct(items[..r] + items[r + 1..]) && OnScreen(v, items[..r] + items[r + 1..])
  {
    var rest := items[..r] + items[r + 1..];
    forall k | 0 <= k < |rest|
      ensures 0 < rest[k].location < SLOTS && v[2 * rest[k].location] == Char(rest[k])
    {
      assert rest[k] == items[if k < r then k else k + 1];
    }
  }

  /** Over any such run the screen shows every entry's current character. */
  lemma {:induction false} ScreenOverRun(vs: seq<seq<int>>, s: seq<seq<Blinker>>, es: seq<Event>, n: nat)
    requires IsRun(s, es) && |vs| == |s| && n <= |es| && Distinct(s[0]) && OnScreen(vs[0], s[0])
    requires forall i {:trigger es[i]} :: 0 <= i < |es| && Distinct(s[i]) && OnScreen(vs[i], s[i]) ==>
               && (es[i].Add? ==> 0 < es[i].b.location && IndexOf(s[i], es[i].b.location, 0) == -1)
               && vs[i + 1] == Video(vs[i], s[i], es[i])
    ensures Distinct(s[n]) && OnScreen(vs[n], s[n])
  {
    hide Distinct, OnScreen, Next, Video;
    if n > 0 {
      ScreenOverRun(vs, s, es, n - 1);
      NextShows(vs[n - 1], s[n - 1], es[n - 1]);
    }
  }

  // ----- the pool

  ghost predicate NoDup(list: seq<int>) {
    && (forall k {:trigger list[k]} :: 0 <= k < |list| ==> 0 <= list[k] < SLOTS)
    && forall i, j {:trigger list[i], list[j]} :: 0 <= i < j < |list| ==> list[i] != list[j]
  }

  ghost function FirstOf(list: seq<int>, n: nat): set<int>
    requires n <= |list|
  {
    set k | 0 <= k < n :: list[k]
  }

  ghost function Range(n: nat): (r: set<int>)
    ensures |r| == n && forall i :: i in r <==> 0 <= i < n
  {
    if n == 0 then {} else Range(n - 1) + {n - 1}
  }

  lemma {:induction false} SizeOfFirst(list: seq<int>, n: nat)
    requires NoDup(list) && n <= |list|
    ensures |FirstOf(list, n)| == n
  {
    if n > 0 {
      SizeOfFirst(list, n - 1);
      assert list[n - 1] !in FirstOf(list, n - 1);
      assert FirstOf(list, n) == FirstOf(list, n - 1) + {list[n - 1]};
    }
  }

  /** As many distinct slots as there are used ones are all of them. */
  lemma ListIsAll(list: seq<int>, used: set<int>, x: int)
    requires NoDup(list) && Covers(used, list) && x in used
    ensures exists k :: 0 <= k < |list| && list[k] == x
  {
    var s := FirstOf(list, |list|);
    SizeOfFirst(list, |list|);
    assert s <= used;
    assert |used - s| == |used| - |s|;
    assert x !in used - s;
  }

  ghost predicate Covers(used: set<int>, list: seq<int>) {
    |used| == |list| && forall k {:trigger list[k]} :: 0 <= k < |list| ==> list[k] in used
  }

  lemma DropSlot(list: seq<int>, used: set<int>, k: nat)
    requires NoDup(list) && Covers(used, list) && k < |list|
    ensures NoDup(list[..k] + list[k + 1..]) && Covers(used - {list[k]}, list[..k] + list[k + 1..])
  {
  }

  /** A set of numbers below `n` has `n` members exactly when it has them all. */
  lemma FullExactly(used: set<int>, n: nat)
    requires forall x :: x in used ==> 0 <= x < n
    ensures |used| >= n <==> forall i :: 0 <= i < n ==> i in used
  {
    var all := Range(n);
    assert used <= all;
    assert |all - used| == |all| - |used|;
    if |used| >= n { assert all - used == {} && used == all; }
    if forall i :: 0 <= i < n ==> i in used { assert all == used; }
  }

  function LinkAt(list: seq<int>, k: nat): int {
    if k < |list| then list[k] else -1
  }

  // ----- an entry at location 0

  /** The slots as they lie in memory. */
  datatype Chain = Chain(pool: seq<Blinker>, next: seq<int>, head: int)

  function FreeSlot(pool: seq<Blinker>, i: nat): (s: int)
    ensures if s == -1 then forall j :: i <= j < |pool| ==> pool[j].location != 0
            else i <= s < |pool| && pool[s].location == 0 && forall j :: i <= j < s ==> pool[j].location != 0
    decreases |pool| - i
  {
    if i >= |pool| then -1 else if pool[i].location == 0 then i else FreeSlot(pool, i + 1)
  }

  /** mp1_ioctl_add on the slots. */
  function Added(c: Chain, e: Blinker): Chain
    requires |c.pool| == |c.next|
  {
    var s := FreeSlot(c.pool, 0);
    if e.location >= SLOTS || s == -1 then c
    else Chain(c.pool[s := Started(e)], c.next[s := c.head], s)
  }

  /** The slot that a walk over the list comes to after `n` links. */
  function Hop(c: Chain, n: nat): int {
    if n == 0 then c.head
    else
      var s := Hop(c, n - 1);
      if 0 <= s < |c.next| then c.next[s] else -1
  }

  /** The entry at location 0 leaves its slot free, so that the next add takes the same slot and
      links it to itself: no walk over the list comes to an end any more. */
  lemma {:induction false} AddAfterZeroNeverEnds(c: Chain, e: Blinker, f: Blinker, n: nat)
    requires |c.pool| == |c.next| == SLOTS && FreeSlot(c.pool, 0) != -1
    requires e.location == 0 && f.location < SLOTS
    ensures Hop(Added(Added(c, e), f), n) == FreeSlot(c.pool, 0)
  {
    var s, w := FreeSlot(c.pool, 0), Added(c, e);
    var t := FreeSlot(w.pool, 0);
    assert w.pool[s].location == 0 && forall j :: 0 <= j < s ==> w.pool[j] == c.pool[j];
    assert t == s;
    if n > 0 { AddAfterZeroNeverEnds(c, e, f, n - 1); }
  }

  class Blinkers {
    const pool: array<Blinker>
    const next: array<int>        // the link of each slot's entry, -1 for none
    const vmem: array<int>
    var head: int
    ghost var list: seq<int>      // the slots from the head on
    ghost var items: seq<Blinker> // what they hold
    ghost var used: set<int>      // the slots whose location is not zero

    ghost predicate Shaped() {
      && pool.Length == SLOTS && next.Length == SLOTS && vmem.Length == 2 * SLOTS
      && next != vmem
    }

    function Slots(): Chain
      reads this, pool, next
    {
      Chain(pool[..], next[..], head)
    }

    /** The links run through distinct slots to an end. */
    ghost predicate Linked()
      reads this, next
    {
      && next.Length == SLOTS && NoDup(list) && head == LinkAt(list, 0)
      && forall k {:trigger next[list[k]]} :: 0 <= k < |list| ==> next[list[k]] == LinkAt(list, k + 1)
    }

    ghost predicate Held()
      reads this, pool
    {
      && pool.Length == SLOTS && NoDup(list) && |items| == |list|
      && forall k {:trigger items[k]} {:trigger list[k]} :: 0 <= k < |list| ==> pool[list[k]] == items[k]
    }

    /** The list is free of cycles and runs through exactly the slots whose location is not zero. */
    ghost predicate Valid()
      reads this, pool, next
    {
      && Shaped() && Linked() && Held() && Located(items)
      && Covers(used, list) && (forall i {:trigger i in used} :: i in used ==> 0 <= i < SLOTS)
      && forall i {:trigger pool[i]} :: 0 <= i < SLOTS ==> (i in used <==> pool[i].location != 0)
    }

    constructor (video: array<int>)
      requires video.Length == 2 * SLOTS
      ensures Valid() && items == [] && vmem == video && fresh(pool) && fresh(next)
    {
      pool := new Blinker[SLOTS](_ => ZERO);
      next := new int[SLOTS](_ => 0);
      vmem, head, list, items, used := video, -1, [], [], {};
    }

    /** mp1_malloc: the first slot whose location is zero. */
    method Malloc() returns (slot: int)
      requires Valid()
      ensures slot == -1 <==> |items| >= SLOTS
      ensures slot != -1 ==> 0 <= slot < SLOTS && slot !in used
      ensures slot == FreeSlot(pool[..], 0)
    {
      FullExactly(used, SLOTS);
      for i := 0 to SLOTS
        invariant forall j :: 0 <= j < i ==> j in used
        invariant FreeSlot(pool[..], 0) == FreeSlot(pool[..], i)
      {
        if pool[i].location == 0 {
          return i;
        }
      }
      return -1;
    }

    /** mp1_ioctl_add, of an entry copied from the caller.  An entry at location 0 would be put in a
        slot that stays free, and only that breaks the list: see AddAfterZeroNeverEnds. */
    method Add(e: Blinker) returns (r: int)
      requires Valid() && IsWord(e.location)
      modifies this, pool, next, vmem
      ensures r == if e.location < SLOTS && |old(items)| < SLOTS then 0 else -1
      ensures Valid() <==> !(r == 0 && e.location == 0)
      ensures items == Next(old(items), Event.Add(e))
      ensures vmem[..] == Video(old(vmem[..]), old(items), Event.Add(e))
      ensures Slots() == Added(old(Slots()), e)
      ensures if r == -1 then items == old(items) && vmem[..] == old(vmem[..])
              else && items == [e.(status := 1, countdown := e.onLength)] + old(items)
                   && vmem[..] == old(vmem[..])[2 * e.location := e.onChar]
    {
      if e.location >= SLOTS {
        return -1;
      }
      var temp := Started(e);
      var slot := Malloc();
      if slot == -1 {
        return -1;
      }
      Insert(slot, temp);
      vmem[2 * temp.location] := temp.onChar;
      return 0;
    }

    /** The entry goes into the slot and to the front of the list. */
    method Insert(slot: int, temp: Blinker)
      requires Valid() && 0 <= slot < SLOTS && slot !in used && 0 <= temp.location < SLOTS
      modifies this, pool, next
      ensures Valid() <==> temp.location != 0
      ensures items == [temp] + old(items)
      ensures Slots() == Chain(old(pool[..])[slot := temp], old(next[..])[slot := old(head)], slot)
    {
      pool[slot] := temp;
      next[slot] := head;
      head := slot;
      list, items, used := [slot] + list, [temp] + items, used + {slot};
      assert list[0] == slot && items[0] == temp;
    }

    /** mp1_find_helper. */
    method FindHelper(location: int) returns (slot: int, ghost k: int)
      requires Valid()
      ensures k == IndexOf(items, location, 0)
      ensures var i := IndexOf(items, location, 0);
              slot == if i == -1 then -1 else list[i]
    {
      slot, k := head, 0;
      while slot != -1
        invariant 0 <= k <= |list| && slot == LinkAt(list, k)
        invariant IndexOf(items, location, 0) == IndexOf(items, location, k)
        decreases |list| - k
      {
        if pool[slot].location == location {
          return;
        }
        slot := next[slot];
        k := k + 1;
      }
      k := -1;
    }

    /** mp1_ioctl_find, past the copying from and to the caller. */
    method Find(location: int) returns (r: int, e: Blinker)
      requires Valid()
      ensures var k := IndexOf(items, location, 0);
              if k == -1 then r == -1 else r == 0 && e == items[k]
      ensures r == -1 <==> forall j :: 0 <= j < |items| ==> items[j].location != location
      ensures r == 0 ==> exists k :: FirstAt(items, location, k) && e == items[k]
    {
      var slot, k := FindHelper(location);
      if slot == -1 {
        return -1, ZERO;
      }
      assert FirstAt(items, location, k);
      return 0, pool[slot];
    }

    /** The search for the link that leads to a slot: -1 for the head, else the slot before. */
    method FindPrev(slot: int, ghost k: int) returns (prev: int)
      requires Valid() && 0 <= k < |list| && slot == list[k]
      ensures prev == if k == 0 then -1 else list[k - 1]
    {
      prev := -1;
      ghost var j := 0;
      while (if prev == -1 then head else next[prev]) != slot
        invariant 0 <= j <= k && prev == (if j == 0 then -1 else list[j - 1])
        decreases k - j
      {
        prev := if prev == -1 then head else next[prev];
        j := j + 1;
      }
    }

    /** mp1_ioctl_remove: the entry found is unlinked and its slot zeroed. */
    method Remove(location: int) returns (r: int)
      requires Valid()
      modifies this, pool, next
      ensures Valid() && items == Next(old(items), Event.Remove(location))
      ensures r == if IndexOf(old(items), location, 0) == -1 then -1 else 0
      ensures r == -1 ==> items == old(items) && forall j :: 0 <= j < |items| ==> items[j].location != location
      ensures r == 0 ==> |items| == |old(items)| - 1
      ensures r == 0 && Distinct(old(items)) ==> forall j :: 0 <= j < |items| ==> items[j].location != location
    {
      RemoveTakesOne(items, location);
      assert |items| == |list| && NoDup(list);
      hide Linked, Held, Located, Covers, NoDup;
      var slot, k := FindHelper(location);
      if slot == -1 {
        return -1;
      }
      var prev := FindPrev(slot, k);
      Unlink(slot, prev, k);
      return 0;
    }

    /** The link that led to the slot now leads past it. */
    method Relink(slot: int, prev: int, ghost k: int)
      requires Shaped() && Linked() && 0 <= k < |list| && slot == list[k]
      requires prev == if k == 0 then -1 else list[k - 1]
      modifies next, `head, `list
      ensures list == old(list)[..k] + old(list)[k + 1..] && Linked()
    {
      if prev == -1 {
        head := next[slot];
      } else {
        next[prev] := next[slot];
      }
      ghost var was := list;
      list := list[..k] + list[k + 1..];
      forall j | 0 <= j < |list|
        ensures next[list[j]] == LinkAt(list, j + 1)
      {
        var i := if j < k then j else j + 1;
        assert list[j] == was[i] && old(next[was[i]]) == LinkAt(was, i + 1) && old(next[was[k]]) == LinkAt(was, k + 1);
      }
    }

    method Unlink(slot: int, prev: int, ghost k: int)
      requires Valid() && 0 <= k < |list| && slot == list[k] && prev == (if k == 0 then -1 else list[k - 1])
      modifies this, pool, next
      ensures Valid() && items == old(items)[..k] + old(items)[k + 1..]
    {
      DropSlot(list, used, k);
      Relink(slot, prev, k);
      items, used := items[..k] + items[k + 1..], used - {slot};
      pool[slot], next[slot] := ZERO, 0;
    }

    /** mp1_rtc_tasklet. */
    method Tick()
      requires Valid()
      modifies `items, pool, vmem
      ensures Valid() && items == Next(old(items), Event.Tick)
      ensures vmem[..] == Video(old(vmem[..]), old(items), Event.Tick)
    {
      var slot := head;
      ghost var k, was, video := 0, items, vmem[..];
      while slot != -1
        invariant Valid() && 0 <= k <= |list| && slot == LinkAt(list, k)
        invariant |items| == |was|
        invariant forall j {:trigger items[j]} :: 0 <= j < |was| ==>
                    items[j] == if j < k then TickOne(was[j]) else was[j]
        invariant vmem[..] == Poked(video, was, k)
        decreases |list| - k
      {
        TickSlot(slot, k);
        slot := next[slot];
        k := k + 1;
      }
    }

    method TickSlot(slot: int, ghost k: int)
      requires Valid() && 0 <= k < |list| && slot == list[k]
      modifies `items, pool, vmem
      ensures Valid() && items == old(items)[k := TickOne(old(items)[k])]
      ensures vmem[..] == if Flips(old(items)[k])
                          then old(vmem[..])[2 * items[k].location := Char(items[k])] else old(vmem[..])
    {
      var b := pool[slot];
      b := b.(countdown := Dec(b.countdown));
      if !Positive(b.countdown) {
        var eax := 2 * b.location;
        if On(b) {
          vmem[eax] := b.offChar;
          b := b.(countdown := b.offLength, status := b.status - 1);
        } else {
          vmem[eax] := b.onChar;
          b := b.(countdown := b.onLength, status := b.status + 1);
        }
      }
      pool[slot] := b;
      items := items[k := b];
    }
  }
}
