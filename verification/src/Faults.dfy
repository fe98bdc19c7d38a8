/** The harness's trace mutations; the random generator's choices are arbitrary. */
module Faults {
  import opened Common

  datatype Kind =
    | AdvanceTime(secs: nat)
    | BuyerCommit(buyer: string, seller: string, amount: nat, buyerChainId: bv64, txid: string)
    | SellerAccept(order: OrderId, txid: string)
    | SellerFulfill(order: OrderId, txid: string)
    | SellerClaim(order: OrderId, txid: string)
    | SellerRefund(order: OrderId, txid: string)
    | BuyerWithdraw(order: OrderId, txid: string)
    | Other(tag: string)
  {
    predicate HasTxid() {
      !AdvanceTime? && !Other?
    }

    function WithTxid(text: string): Kind {
      match this
      case BuyerCommit(buyer, seller, amount, chain, _) => BuyerCommit(buyer, seller, amount, chain, text)
      case SellerAccept(order, _) => SellerAccept(order, text)
      case SellerFulfill(order, _) => SellerFulfill(order, text)
      case SellerClaim(order, _) => SellerClaim(order, text)
      case SellerRefund(order, _) => SellerRefund(order, text)
      case BuyerWithdraw(order, _) => BuyerWithdraw(order, text)
      case _ => this
    }

    function WithChain(chain: bv64): Kind {
      if BuyerCommit? then BuyerCommit(buyer, seller, amount, chain, txid) else this
    }
  }

  datatype Event = Event(offsetMono: nat, offsetUnix: nat, kind: Kind)

  // ---------------------------------------------------------------------------
  // Subsequences
  // ---------------------------------------------------------------------------

  /** `a` is `b` with some elements left out. */
  predicate IsSubsequence<T(==)>(a: seq<T>, b: seq<T>) {
    || a == []
    || (b != [] &&
         var a', b' := a[..|a| - 1], b[..|b| - 1];
         || (a[|a| - 1] == b[|b| - 1] && IsSubsequence(a', b'))
         || IsSubsequence(a, b'))
  }

  lemma {:induction false} SubsequenceOfItself<T>(a: seq<T>)
    ensures IsSubsequence(a, a)
  {
    if a != [] {
      SubsequenceOfItself(a[..|a| - 1]);
    }
  }

  lemma {:induction false} SubsequenceTransitive<T>(a: seq<T>, b: seq<T>, c: seq<T>)
    requires IsSubsequence(a, b) && IsSubsequence(b, c)
    ensures IsSubsequence(a, c)
    decreases |a| + |b| + |c|
  {
    if a != [] {
      var a', b', c' := a[..|a| - 1], b[..|b| - 1], c[..|c| - 1];
      if IsSubsequence(b, c') {
        SubsequenceTransitive(a, b, c');
      } else if a[|a| - 1] == b[|b| - 1] && IsSubsequence(a', b') {
        SubsequenceTransitive(a', b', c');
      } else {
        SubsequenceTransitive(a, b', c');
      }
    }
  }

  lemma KeepLast<T>(a: seq<T>, b: seq<T>, x: T)
    requires IsSubsequence(a, b)
    ensures IsSubsequence(a + [x], b + [x])
  {
    assert (a + [x])[..|a|] == a && (b + [x])[..|b|] == b;
  }

  lemma AddToRight<T>(a: seq<T>, b: seq<T>, x: T)
    requires IsSubsequence(a, b)
    ensures IsSubsequence(a, b + [x])
  {
    assert (b + [x])[..|b|] == b;
  }

  /** Leaving out elements leaves out occurrences. */
  lemma {:induction false} SubsequenceCounts<T>(a: seq<T>, b: seq<T>)
    requires IsSubsequence(a, b)
    ensures multiset(a) <= multiset(b)
    decreases |b|
  {
    if a != [] {
      var a', b' := a[..|a| - 1], b[..|b| - 1];
      assert a == a' + [a[|a| - 1]] && b == b' + [b[|b| - 1]];
      if IsSubsequence(a, b') {
        SubsequenceCounts(a, b');
      } else {
        SubsequenceCounts(a', b');
      }
    }
  }

  // ---------------------------------------------------------------------------
  // Dropping, duplicating, noise: one draw for each event
  // ---------------------------------------------------------------------------

  function Kept<T>(events: seq<T>, draws: seq<bool>): seq<T>
    requires |draws| == |events|
  {
    if events == [] then []
    else
      var n := |events| - 1;
      Kept(events[..n], draws[..n]) + if draws[n] then [events[n]] else []
  }

  function Duplicated<T>(events: seq<T>, draws: seq<bool>): seq<T>
    requires |draws| == |events|
  {
    if events == [] then []
    else
      var n := |events| - 1;
      Duplicated(events[..n], draws[..n]) + [events[n]] + if draws[n] then [events[n]] else []
  }

  function NoiseAdvance(evt: Event): Event {
    Event(evt.offsetMono + 1, evt.offsetUnix + 1, AdvanceTime(1))
  }

  function NoiseCommit(evt: Event, number: nat): Event {
    Event(evt.offsetMono + 2, evt.offsetUnix + 2, BuyerCommit("noise", "noise", 1, 999, "noise_tx_" + Decimal(number)))
  }

  function NoiseAfter(evt: Event, draw: Option<nat>): seq<Event> {
    if draw.Some? then [NoiseAdvance(evt), NoiseCommit(evt, draw.value)] else []
  }

  function Noisy(events: seq<Event>, draws: seq<Option<nat>>): seq<Event>
    requires |draws| == |events|
  {
    if events == [] then []
    else
      var n := |events| - 1;
      Noisy(events[..n], draws[..n]) + [events[n]] + NoiseAfter(events[n], draws[n])
  }

  method DropEvents(events: seq<Event>) returns (out: seq<Event>)
    ensures exists draws: seq<bool> | |draws| == |events| :: out == Kept(events, draws)
  {
    out := [];
    ghost var draws: seq<bool> := [];
    for i := 0 to |events|
      invariant |draws| == i && out == Kept(events[..i], draws)
    {
      assert events[..i + 1][..i] == events[..i];
      var keep: bool := *;
      if keep {
        out := out + [events[i]];
      }
      draws := draws + [keep];
      assert draws[..i] + [keep] == draws;
    }
    assert events[..|events|] == events;
  }

  method DuplicateEvents(events: seq<Event>) returns (out: seq<Event>)
    ensures exists draws: seq<bool> | |draws| == |events| :: out == Duplicated(events, draws)
  {
    out := [];
    ghost var draws: seq<bool> := [];
    for i := 0 to |events|
      invariant |draws| == i && out == Duplicated(events[..i], draws)
    {
      assert events[..i + 1][..i] == events[..i];
      out := out + [events[i]];
      var again: bool := *;
      if again {
        out := out + [events[i]];
      }
      draws := draws + [again];
      assert draws[..i] + [again] == draws;
    }
    assert events[..|events|] == events;
  }

  method InjectNoise(events: seq<Event>) returns (out: seq<Event>)
    ensures exists draws: seq<Option<nat>> | |draws| == |events| :: out == Noisy(events, draws)
  {
    out := [];
    ghost var draws: seq<Option<nat>> := [];
    for i := 0 to |events|
      invariant |draws| == i && out == Noisy(events[..i], draws)
    {
      hide NoiseAdvance, NoiseCommit;
      assert events[..i + 1][..i] == events[..i];
      var evt := events[i];
      out := out + [evt];
      var draw: Option<nat> := *;
      ghost var kept := out;
      if draw.Some? {
        out := out + [NoiseAdvance(evt)];
        out := out + [NoiseCommit(evt, draw.value)];
        assert out == kept + [NoiseAdvance(evt), NoiseCommit(evt, draw.value)];
      } else {
        assert out == kept + [];
      }
      draws := draws + [draw];
      assert draws[..i] + [draw] == draws;
    }
    assert events[..|events|] == events;
  }

  /** Dropping yields a subsequence for all draws, and every subsequence for some. */
  lemma DropsIffSubsequence<T>(a: seq<T>, b: seq<T>)
    ensures (exists draws: seq<bool> | |draws| == |b| :: Kept(b, draws) == a) <==> IsSubsequence(a, b)
  {
    forall draws: seq<bool> | |draws| == |b|
      ensures IsSubsequence(Kept(b, draws), b)
    {
      KeptIsSubsequence(b, draws);
    }
    if IsSubsequence(a, b) {
      var draws := DrawsFor(a, b);
      assert Kept(b, draws) == a;
    }
  }

  lemma {:induction false} KeptIsSubsequence<T>(events: seq<T>, draws: seq<bool>)
    requires |draws| == |events|
    ensures IsSubsequence(Kept(events, draws), events)
  {
    SubsequenceOfItself(events);
    if events != [] {
      hide IsSubsequence;
      var n := |events| - 1;
      KeptIsSubsequence(events[..n], draws[..n]);
      assert events[..n] + [events[n]] == events;
      assert Kept(events[..n], draws[..n]) + [] == Kept(events[..n], draws[..n]);
      if draws[n] {
        KeepLast(Kept(events[..n], draws[..n]), events[..n], events[n]);
      } else {
        AddToRight(Kept(events[..n], draws[..n]), events[..n], events[n]);
      }
    }
  }

  lemma {:induction false} DrawsFor<T>(a: seq<T>, b: seq<T>) returns (draws: seq<bool>)
    requires IsSubsequence(a, b)
    ensures |draws| == |b| && Kept(b, draws) == a
    decreases |b|
  {
    if b == [] {
      draws := [];
    } else {
      var b', last := b[..|b| - 1], b[|b| - 1];
      var keep := a != [] && a[|a| - 1] == last && IsSubsequence(a[..|a| - 1], b');
      assert !keep ==> IsSubsequence(a, b');
      hide IsSubsequence;
      if keep {
        draws := DrawsFor(a[..|a| - 1], b');
        assert a == a[..|a| - 1] + [last];
      } else {
        draws := DrawsFor(a, b');
        assert a == a + [];
      }
      assert (draws + [keep])[..|b| - 1] == draws;
      draws := draws + [keep];
    }
  }

  /** Duplication keeps every event in order and at most doubles each. */
  lemma {:induction false} DuplicatedKeeps<T>(events: seq<T>, draws: seq<bool>)
    requires |draws| == |events|
    ensures IsSubsequence(events, Duplicated(events, draws))
    ensures multiset(Duplicated(events, draws)) <= multiset(events) + multiset(events)
  {
    SubsequenceOfItself(events);
    if events != [] {
      hide IsSubsequence;
      var n := |events| - 1;
      var x, before := events[n], Duplicated(events[..n], draws[..n]);
      DuplicatedKeeps(events[..n], draws[..n]);
      assert events[..n] + [x] == events;
      KeepLast(events[..n], before, x);
      if draws[n] {
        AddToRight(events, before + [x], x);
      } else {
        assert before + [x] + [] == before + [x];
      }
    }
  }

  function Hits(draws: seq<bool>): nat {
    if draws == [] then 0 else Hits(draws[..|draws| - 1]) + if draws[|draws| - 1] then 1 else 0
  }

  /** Where each event lands: moved by the copies before it, and followed by its own. */
  lemma {:induction false} DuplicatedAt<T>(events: seq<T>, draws: seq<bool>, i: nat)
    requires |draws| == |events| && i < |events|
    ensures |Duplicated(events, draws)| == |events| + Hits(draws)
    ensures var at := i + Hits(draws[..i]);
            && at < |Duplicated(events, draws)| && Duplicated(events, draws)[at] == events[i]
            && (draws[i] ==> at + 1 < |Duplicated(events, draws)| && Duplicated(events, draws)[at + 1] == events[i])
  {
    var n := |events| - 1;
    if n > 0 {
      DuplicatedAt(events[..n], draws[..n], if i < n then i else 0);
    }
    if i < n {
      assert draws[..n][..i] == draws[..i];
    }
  }

  function Numbers(draws: seq<Option<nat>>): nat {
    if draws == [] then 0 else Numbers(draws[..|draws| - 1]) + if draws[|draws| - 1].Some? then 1 else 0
  }

  lemma {:induction false} NoisyLength(events: seq<Event>, draws: seq<Option<nat>>)
    requires |draws| == |events|
    ensures |Noisy(events, draws)| == |events| + 2 * Numbers(draws)
  {
    hide NoiseAdvance, NoiseCommit;
    if events != [] {
      NoisyLength(events[..|events| - 1], draws[..|events| - 1]);
    }
  }

  /** Where each event lands: moved by the noise before it, and followed by its own. */
  lemma {:induction false} NoisyAt(events: seq<Event>, draws: seq<Option<nat>>, i: nat)
    requires |draws| == |events| && i < |events|
    ensures var at, all := i + 2 * Numbers(draws[..i]), Noisy(events, draws);
            && at < |all| && all[at] == events[i]
            && (draws[i].Some? ==>
                  && at + 2 < |all|
                  && all[at + 1] == NoiseAdvance(events[i])
                  && all[at + 2] == NoiseCommit(events[i], draws[i].value))
  {
    hide NoiseAdvance, NoiseCommit;
    var n := |events| - 1;
    NoisyLength(events[..n], draws[..n]);
    assert Noisy(events, draws) == Noisy(events[..n], draws[..n]) + [events[n]] + NoiseAfter(events[n], draws[n]);
    hide Noisy;
    if i < n {
      NoisyAt(events[..n], draws[..n], i);
      assert draws[..n][..i] == draws[..i];
    }
  }

  /** The noise itself: a second's advance one second later, and another a small commit on chain 999. */
  lemma NoiseIs(e: Event, number: nat)
    ensures NoiseAdvance(e) == Event(e.offsetMono + 1, e.offsetUnix + 1, AdvanceTime(1))
    ensures NoiseCommit(e, number) ==
              Event(e.offsetMono + 2, e.offsetUnix + 2,
                    BuyerCommit("noise", "noise", 1, 999, "noise_tx_" + Decimal(number)))
  {
  }

  predicate IsNoise(e: Event) {
    || e.kind == AdvanceTime(1)
    || (e.kind.BuyerCommit? && e.kind.buyer == "noise" && e.kind.seller == "noise"
        && e.kind.amount == 1 && e.kind.buyerChainId == 999)
  }

  /** Noise keeps every event in order and adds nothing but noise. */
  lemma {:induction false} NoisyKeeps(events: seq<Event>, draws: seq<Option<nat>>)
    requires |draws| == |events|
    ensures IsSubsequence(events, Noisy(events, draws))
    ensures forall e | e in multiset(Noisy(events, draws)) - multiset(events) :: IsNoise(e)
  {
    SubsequenceOfItself(events);
    if events != [] {
      hide IsSubsequence;
      var n := |events| - 1;
      var x, before, noise := events[n], Noisy(events[..n], draws[..n]), NoiseAfter(events[n], draws[n]);
      AllNoise(x, draws[n]);
      hide IsNoise, NoiseAfter;
      NoisyKeeps(events[..n], draws[..n]);
      assert events[..n] + [x] == events;
      KeepLast(events[..n], before, x);
      assert Noisy(events, draws) == before + [x] + noise;
      hide Noisy;
      AddAllToRight(events, before + [x], noise);
      OnlyMore(before, events[..n], x, noise);
    }
  }

  lemma AllNoise(e: Event, draw: Option<nat>)
    ensures forall f | f in NoiseAfter(e, draw) :: IsNoise(f)
  {
    hide Decimal;
  }

  lemma {:induction false} AddAllToRight<T>(a: seq<T>, b: seq<T>, more: seq<T>)
    requires IsSubsequence(a, b)
    ensures IsSubsequence(a, b + more)
  {
    if more == [] {
      assert b + more == b;
    } else {
      var n := |more| - 1;
      AddAllToRight(a, b, more[..n]);
      AddToRight(a, b + more[..n], more[n]);
      assert b + more[..n] + [more[n]] == b + more;
    }
  }

  lemma OnlyMore<T>(b: seq<T>, a: seq<T>, x: T, more: seq<T>)
    ensures forall e | e in multiset(b + [x] + more) - multiset(a + [x]) ::
              e in multiset(b) - multiset(a) || e in more
  {
    assert multiset(b + [x] + more) == multiset(b) + multiset{x} + multiset(more);
    assert multiset(a + [x]) == multiset(a) + multiset{x};
  }

  // ---------------------------------------------------------------------------
  // Reordering
  // ---------------------------------------------------------------------------

  function Swapped<T>(s: seq<T>, i: nat, j: nat): (r: seq<T>)
    requires i < |s| && j < |s|
    ensures |r| == |s|
  {
    s[i := s[j]][j := s[i]]
  }

  lemma SwappedSameElements<T>(s: seq<T>, i: nat, j: nat)
    requires i < |s| && j < |s|
    ensures multiset(Swapped(s, i, j)) == multiset(s)
  {
  }

  /** Fisher-Yates over one window, in place, whatever the draws. */
  method Shuffle<T>(a: array<T>, lo: nat, hi: nat)
    requires lo <= hi <= a.Length
    modifies a
    ensures a[..lo] == old(a[..lo]) && a[hi..] == old(a[hi..])
    ensures multiset(a[lo..hi]) == multiset(old(a[lo..hi]))
  {
    var i := hi - lo;
    while i > 1
      invariant i <= hi - lo
      invariant a[..lo] == old(a[..lo]) && a[hi..] == old(a[hi..])
      invariant multiset(a[lo..hi]) == multiset(old(a[lo..hi]))
    {
      i := i - 1;
      var j: nat :| j <= i;
      ghost var window := a[lo..hi];
      a[lo + i], a[lo + j] := a[lo + j], a[lo + i];
      assert a[lo..hi] == Swapped(window, i, j);
      SwappedSameElements(window, i, j);
    }
  }

  /**
   Cut into `n` windows of size `w`, the last perhaps shorter, the two traces have the
   same events window by window.
   */
  ghost predicate SameByWindows<T>(a: seq<T>, b: seq<T>, w: nat, n: nat)
    decreases n
  {
    && |a| == |b|
    && if n == 0 then a == []
       else
         var cut := (n - 1) * w;
         && cut <= |a| <= cut + w
         && multiset(a[cut..]) == multiset(b[cut..])
         && SameByWindows(a[..cut], b[..cut], w, n - 1)
  }

  ghost predicate ShuffledWithinWindows<T>(a: seq<T>, b: seq<T>, w: nat) {
    exists n: nat :: SameByWindows(a, b, w, n)
  }

  lemma OneMoreWindow<T>(a: seq<T>, b: seq<T>, w: nat, n: nat, x: seq<T>, y: seq<T>)
    requires |a| == n * w && SameByWindows(a, b, w, n)
    requires |x| == |y| <= w && multiset(x) == multiset(y)
    ensures SameByWindows(a + x, b + y, w, n + 1)
  {
    assert (a + x)[..n * w] == a && (b + y)[..n * w] == b;
    assert (a + x)[n * w..] == x && (b + y)[n * w..] == y;
  }

  /** One window shuffled, everything before and after it left alone. */
  lemma WindowDone<T>(was: seq<T>, before: seq<T>, after: seq<T>, i: nat, end: nat, w: nat, n: nat)
    requires i == n * w && i <= end <= |was| && end <= i + w
    requires |before| == |was| == |after|
    requires SameByWindows(before[..i], was[..i], w, n) && before[i..] == was[i..]
    requires after[..i] == before[..i] && after[end..] == before[end..]
    requires multiset(after[i..end]) == multiset(before[i..end])
    ensures SameByWindows(after[..end], was[..end], w, n + 1) && after[end..] == was[end..]
    ensures end == |was| ==> SameByWindows(after, was, w, n + 1)
  {
    assert before[i..end] == before[i..][..end - i] && was[i..end] == was[i..][..end - i];
    assert before[end..] == before[i..][end - i..] && was[end..] == was[i..][end - i..];
    OneMoreWindow(after[..i], was[..i], w, n, after[i..end], was[i..end]);
    assert after[..end] == after[..i] + after[i..end] && was[..end] == was[..i] + was[i..end];
    if end == |was| {
      assert after[..end] == after && was[..end] == was;
    }
  }

  /** What one turn of the loop does to its index. */
  function Turn(i: nat, w: nat): nat {
    i + w
  }

  /** The index after a number of turns from zero. */
  function IndexAfter(turns: nat, w: nat): nat {
    if turns == 0 then 0 else Turn(IndexAfter(turns - 1, w), w)
  }

  /** The loop's own condition. */
  predicate GoesOn(i: nat, length: nat) {
    i + 1 < length
  }

  lemma {:induction false} IndexIsMultiple(turns: nat, w: nat)
    ensures IndexAfter(turns, w) == turns * w
  {
    if turns > 0 {
      IndexIsMultiple(turns - 1, w);
      NextMultiple(turns - 1, w);
    }
  }

  /**
   Shuffles window after window. With a window of zero the index never moves, so a
   trace of two events or more needs a positive window.
   */
  method ReorderRange<T>(a: array<T>, w: nat)
    requires w > 0 || a.Length < 2
    modifies a
    ensures if a.Length < 2 then a[..] == old(a[..]) else ShuffledWithinWindows(a[..], old(a[..]), w)
  {
    if a.Length < 2 {
      return;
    }
    ghost var was := a[..];
    var i := 0;
    ghost var n := 0;
    assert SameByWindows(a[..][..i], was[..i], w, n);
    hide SameByWindows;
    while GoesOn(i, a.Length)
      invariant i == IndexAfter(n, w) == n * w
      invariant i < a.Length ==> SameByWindows(a[..][..i], was[..i], w, n) && a[..][i..] == was[i..]
      invariant i >= a.Length ==> SameByWindows(a[..], was, w, n)
      decreases a.Length - i
    {
      var end := if i + w < a.Length then i + w else a.Length;
      ghost var before := a[..];
      Shuffle(a, i, end);
      WindowDone(was, before, a[..], i, end, w, n);
      NextMultiple(n, w);
      i, n := Turn(i, w), n + 1;
    }
    if i < a.Length {
      WindowDone(was, a[..], a[..], i, a.Length, w, n);
    }
  }

  lemma NextMultiple(n: nat, w: nat)
    ensures (n + 1) * w == n * w + w
  {
  }

  /** Reordering permutes the whole trace. */
  lemma {:induction false} SameByWindowsPermutes<T>(a: seq<T>, b: seq<T>, w: nat, n: nat)
    requires SameByWindows(a, b, w, n)
    ensures multiset(a) == multiset(b)
    decreases n
  {
    if n > 0 {
      var cut := (n - 1) * w;
      SameByWindowsPermutes(a[..cut], b[..cut], w, n - 1);
      assert a == a[..cut] + a[cut..] && b == b[..cut] + b[cut..];
    }
  }

  /** An event never leaves its own window: window `m` holds it before and after. */
  lemma {:induction false} StaysInWindow<T>(a: seq<T>, b: seq<T>, w: nat, n: nat, k: nat) returns (j: nat, m: nat)
    requires SameByWindows(a, b, w, n) && k < |a|
    ensures j < |b| && b[j] == a[k]
    ensures m * w <= k < m * w + w && m * w <= j < m * w + w
    decreases n
  {
    var cut := (n - 1) * w;
    if k < cut {
      j, m := StaysInWindow(a[..cut], b[..cut], w, n - 1, k);
    } else {
      assert a[cut..][k - cut] in multiset(b[cut..]);
      var at :| 0 <= at < |b| - cut && b[cut..][at] == a[k];
      j, m := cut + at, n - 1;
    }
  }

  /** The loop comes to an end exactly if the window is positive or there are fewer than two events. */
  lemma ReorderTerminatesIff(length: nat, w: nat)
    ensures (exists turns :: !GoesOn(IndexAfter(turns, w), length)) <==> w > 0 || length < 2
  {
    if w > 0 {
      IndexIsMultiple(length, w);
      assert length * w >= length;
      assert !GoesOn(IndexAfter(length, w), length);
    } else if length < 2 {
      assert !GoesOn(IndexAfter(0, w), length);
    } else {
      forall turns ensures IndexAfter(turns, w) == 0 {
        IndexIsMultiple(turns, w);
      }
    }
  }

  // ---------------------------------------------------------------------------
  // Altering events one by one
  // ---------------------------------------------------------------------------

  const MAX_U64: nat := 0xFFFF_FFFF_FFFF_FFFF
  const REPLACEMENT: char := '\U{FFFD}'

  function SaturatingAdd(offset: nat, delta: int): nat {
    if offset + delta < 0 then 0 else if offset + delta > MAX_U64 then MAX_U64 else offset + delta
  }

  function Skewed(e: Event, mono: int, unix: int): Event {
    e.(offsetMono := SaturatingAdd(e.offsetMono, mono), offsetUnix := SaturatingAdd(e.offsetUnix, unix))
  }

  /** An acceptance is put off by a day. */
  function Delayed(e: Event): Event {
    if e.kind.SellerAccept? then e.(offsetMono := e.offsetMono + 86400) else e
  }

  function FlippedChain(e: Event): Event {
    if e.kind.BuyerCommit? then e.(kind := e.kind.WithChain(e.kind.buyerChainId ^ 0x1337)) else e
  }

  predicate IsAscii(s: string) {
    forall i | 0 <= i < |s| :: s[i] < '\U{0080}'
  }

  /**
   One byte inverted, and what is then no UTF-8 replaced. Of an ASCII text exactly
   one character is replaced; of any other text the result is left open.
   */
  predicate Corrupted(s: string, r: string) {
    && (s == "" ==> r == "")
    && (s != "" && IsAscii(s) ==> exists i | 0 <= i < |s| :: ReplacedAt(s, r, i))
  }

  predicate ReplacedAt(s: string, r: string, i: nat)
    requires i < |s|
  {
    r == s[i := REPLACEMENT]
  }

  predicate TxidCorrupted(e: Event, f: Event) {
    if e.kind.HasTxid()
    then f.kind.HasTxid() && f == e.(kind := e.kind.WithTxid(f.kind.txid)) && Corrupted(e.kind.txid, f.kind.txid)
    else f == e
  }

  method TimestampSkew(events: seq<Event>, mono: int, unix: int) returns (out: seq<Event>)
    ensures |out| == |events|
    ensures forall i | 0 <= i < |events| :: out[i] == Skewed(events[i], mono, unix)
  {
    out := events;
    for i := 0 to |events|
      invariant |out| == |events|
      invariant forall j | 0 <= j < |events| :: out[j] == if j < i then Skewed(events[j], mono, unix) else events[j]
    {
      out := out[i := out[i].(offsetMono := SaturatingAdd(out[i].offsetMono, mono))];
      out := out[i := out[i].(offsetUnix := SaturatingAdd(out[i].offsetUnix, unix))];
    }
  }

  method CorruptString(s: string) returns (r: string)
    ensures Corrupted(s, r)
  {
    r := s;
    if s != "" {
      if IsAscii(s) {
        var at :| 0 <= at < |s|;
        r := s[at := REPLACEMENT];
        assert ReplacedAt(s, r, at);
      } else {
        r := *;
      }
    }
  }

  method CorruptTxids(events: seq<Event>) returns (out: seq<Event>)
    ensures |out| == |events|
    ensures forall i | 0 <= i < |events| :: out[i] == events[i] || TxidCorrupted(events[i], out[i])
  {
    hide Corrupted;
    out := events;
    for i := 0 to |events|
      invariant |out| == |events|
      invariant forall j | 0 <= j < i :: out[j] == events[j] || TxidCorrupted(events[j], out[j])
      invariant forall j | i <= j < |events| :: out[j] == events[j]
    {
      var hit: bool := *;
      if hit && out[i].kind.HasTxid() {
        var txid := CorruptString(out[i].kind.txid);
        out := out[i := out[i].(kind := out[i].kind.WithTxid(txid))];
      }
    }
  }

  method CorruptChainIds(events: seq<Event>) returns (out: seq<Event>)
    ensures |out| == |events|
    ensures forall i | 0 <= i < |events| :: out[i] == events[i] || out[i] == FlippedChain(events[i])
  {
    hide FlippedChain;
    out := events;
    for i := 0 to |events|
      invariant |out| == |events|
      invariant forall j | 0 <= j < i :: out[j] == events[j] || out[j] == FlippedChain(events[j])
      invariant forall j | i <= j < |events| :: out[j] == events[j]
    {
      var hit: bool := *;
      if hit {
        out := out[i := FlippedChain(out[i])];
      }
    }
  }

  /** Flipping a chain id always changes it, and doing so twice restores it. */
  lemma FlipsBack(e: Event)
    ensures FlippedChain(FlippedChain(e)) == e
    ensures FlippedChain(e) == e <==> !e.kind.BuyerCommit?
  {
    if e.kind.BuyerCommit? {
      XorTwice(e.kind.buyerChainId);
    }
  }

  lemma XorTwice(x: bv64)
    ensures x ^ 0x1337 != x && (x ^ 0x1337) ^ 0x1337 == x
  {
  }

  method ForceLateFulfillment(events: seq<Event>) returns (out: seq<Event>)
    ensures |out| == |events|
    ensures forall i | 0 <= i < |events| :: out[i] == Delayed(events[i])
  {
    out := events;
    for i := 0 to |events|
      invariant |out| == |events|
      invariant forall j | 0 <= j < |events| :: out[j] == if j < i then Delayed(events[j]) else events[j]
    {
      if out[i].kind.SellerAccept? {
        out := out[i := out[i].(offsetMono := out[i].offsetMono + 86400)];
      }
    }
  }

  /** A skewed offset is the one in range nearest to the sum. */
  lemma SkewIsNearest(offset: nat, delta: int, other: nat)
    requires offset < 0x1_0000_0000_0000_0000 && other < 0x1_0000_0000_0000_0000
    ensures SaturatingAdd(offset, delta) < 0x1_0000_0000_0000_0000
    ensures Distance(SaturatingAdd(offset, delta), offset + delta) <= Distance(other, offset + delta)
  {
  }

  function Distance(a: int, b: int): nat {
    if a < b then b - a else a - b
  }

  /** What no alteration touches: the kind of event and its contents, txid and chain id apart. */
  function Shape(e: Event): Kind {
    e.kind.WithTxid("").WithChain(0)
  }

  function Shapes(events: seq<Event>): seq<Kind> {
    seq(|events|, i requires 0 <= i < |events| => Shape(events[i]))
  }

  /** A forced delay is a day on acceptances alone; a flip is of the bits of 4919 in a commit's chain id alone. */
  lemma AlterationsAre(e: Event)
    ensures Delayed(e) == if e.kind.SellerAccept? then Event(e.offsetMono + 24 * 60 * 60, e.offsetUnix, e.kind) else e
    ensures FlippedChain(e).offsetMono == e.offsetMono && FlippedChain(e).offsetUnix == e.offsetUnix
    ensures e.kind.BuyerCommit? ==>
              FlippedChain(e).kind == BuyerCommit(e.kind.buyer, e.kind.seller, e.kind.amount,
                                                  e.kind.buyerChainId ^ 4919, e.kind.txid)
  {
  }

  lemma AlteredSameShape(e: Event, f: Event, mono: int, unix: int)
    requires f == Skewed(e, mono, unix) || f == Delayed(e) || f == FlippedChain(e) || TxidCorrupted(e, f) || f == e
    ensures Shape(f) == Shape(e)
  {
    hide Corrupted, SaturatingAdd;
  }

  lemma {:induction false} SubsequenceOfShapes(a: seq<Event>, b: seq<Event>)
    requires IsSubsequence(a, b)
    ensures IsSubsequence(Shapes(a), Shapes(b))
    decreases |b|
  {
    hide Shape;
    if a != [] {
      var a', b' := a[..|a| - 1], b[..|b| - 1];
      assert Shapes(a)[..|a| - 1] == Shapes(a') && Shapes(b)[..|b| - 1] == Shapes(b');
      if IsSubsequence(a, b') {
        SubsequenceOfShapes(a, b');
      } else {
        SubsequenceOfShapes(a', b');
      }
    }
  }

  function Without<T>(s: seq<T>, i: nat): (r: seq<T>)
    requires i < |s|
    ensures |r| == |s| - 1
  {
    s[..i] + s[i + 1..]
  }

  lemma WithoutCounts<T>(s: seq<T>, i: nat)
    requires i < |s|
    ensures multiset(s) == multiset(Without(s, i)) + multiset{s[i]}
  {
    assert s == s[..i] + [s[i]] + s[i + 1..];
  }

  lemma WithoutShapes(s: seq<Event>, i: nat)
    requires i < |s|
    ensures Shapes(Without(s, i)) == Without(Shapes(s), i)
  {
    hide Shape;
  }

  lemma LessOne<T>(a: multiset<T>, b: multiset<T>, x: T)
    requires a + multiset{x} <= b + multiset{x}
    ensures a <= b
  {
    forall y ensures a[y] <= b[y] {
      assert (a + multiset{x})[y] <= (b + multiset{x})[y];
    }
  }

  /** Counting events bounds counting shapes. */
  lemma {:induction false} ShapesCount(a: seq<Event>, b: seq<Event>)
    requires multiset(a) <= multiset(b)
    ensures multiset(Shapes(a)) <= multiset(Shapes(b))
    decreases |a|
  {
    if a != [] {
      var n := |a| - 1;
      assert a[n] in multiset(b);
      var j: nat :| j < |b| && b[j] == a[n];
      WithoutCounts(a, n);
      WithoutCounts(b, j);
      WithoutShapes(a, n);
      WithoutShapes(b, j);
      WithoutCounts(Shapes(a), n);
      WithoutCounts(Shapes(b), j);
      assert Shapes(a)[n] == Shapes(b)[j];
      hide Shapes, Without;
      LessOne(multiset(Without(a, n)), multiset(Without(b, j)), a[n]);
      ShapesCount(Without(a, n), Without(b, j));
    }
  }

  // ---------------------------------------------------------------------------
  // Pipelines
  // ---------------------------------------------------------------------------

  datatype Fault =
    | Drop
    | Duplicate
    | Reorder(window: nat)
    | Skew(mono: int, unix: int)
    | CorruptTxid
    | CorruptChainId
    | ForceLate
    | Noise
  {
    /** Adds events and loses none. */
    predicate Gains() { Duplicate? || Noise? }

    /** Changes events where they stand. */
    predicate Alters() { Skew? || CorruptTxid? || CorruptChainId? || ForceLate? }
  }

  /** How a trace relates to the original after some faults. */
  ghost predicate Mutated<T>(original: seq<T>, trace: seq<T>, faults: seq<Fault>) {
    && ((forall f | f in faults :: f.Alters()) ==> trace == original)
    && ((forall f | f in faults :: f.Gains() || f.Alters()) ==> IsSubsequence(original, trace))
    && ((forall f | f in faults :: f.Drop? || f.Alters()) ==> IsSubsequence(trace, original))
    && ((forall f | f in faults :: !f.Drop?) ==> multiset(original) <= multiset(trace))
    && ((forall f | f in faults :: !f.Gains()) ==> multiset(trace) <= multiset(original))
    && ((forall f | f in faults :: !f.Noise?) ==> forall e | e in trace :: e in original)
  }

  /** How one fault changes a trace. */
  ghost predicate MutatedBy<T>(trace: seq<T>, next: seq<T>, fault: Fault) {
    if fault.Drop? then IsSubsequence(next, trace)
    else if fault.Duplicate? then IsSubsequence(trace, next) && multiset(next) <= multiset(trace) + multiset(trace)
    else if fault.Reorder? then multiset(next) == multiset(trace)
    else if fault.Noise? then IsSubsequence(trace, next)
    else next == trace
  }

  lemma MutatedOnce<T>(original: seq<T>, trace: seq<T>, next: seq<T>, faults: seq<Fault>, fault: Fault)
    requires Mutated(original, trace, faults) && MutatedBy(trace, next, fault)
    ensures Mutated(original, next, faults + [fault])
  {
    hide IsSubsequence;
    assert fault in faults + [fault];
    assert forall f :: f in faults + [fault] <==> f in faults || f == fault;
    assert forall e :: e in next <==> e in multiset(next);
    assert forall e :: e in trace <==> e in multiset(trace);
    if IsSubsequence(next, trace) {
      SubsequenceCounts(next, trace);
      if IsSubsequence(trace, original) {
        SubsequenceTransitive(next, trace, original);
      }
    }
    if IsSubsequence(trace, next) {
      SubsequenceCounts(trace, next);
      if IsSubsequence(original, trace) {
        SubsequenceTransitive(original, trace, next);
      }
    }
  }

  lemma ShapesMutatedBy(trace: seq<Event>, next: seq<Event>, fault: Fault)
    requires MutatedBy(trace, next, fault)
    ensures MutatedBy(Shapes(trace), Shapes(next), fault)
  {
    hide IsSubsequence, Shape;
    if fault.Drop? {
      SubsequenceOfShapes(next, trace);
    } else if fault.Gains() {
      SubsequenceOfShapes(trace, next);
      if fault.Duplicate? {
        ShapesCount(next, trace + trace);
        assert Shapes(trace + trace) == Shapes(trace) + Shapes(trace);
      }
    } else if fault.Reorder? {
      ShapesCount(next, trace);
      ShapesCount(trace, next);
    }
  }

  method ApplyFault(trace: seq<Event>, fault: Fault) returns (next: seq<Event>)
    requires fault.Reorder? ==> fault.window > 0
    ensures MutatedBy(Shapes(trace), Shapes(next), fault)
    ensures !fault.Alters() ==> MutatedBy(trace, next, fault)
  {
    hide IsSubsequence, Kept, Duplicated, Noisy, ShuffledWithinWindows;
    match fault {
      case Drop =>
        next := DropEvents(trace);
        ghost var draws: seq<bool> :| |draws| == |trace| && next == Kept(trace, draws);
        KeptIsSubsequence(trace, draws);
      case Duplicate =>
        next := DuplicateEvents(trace);
        ghost var draws: seq<bool> :| |draws| == |trace| && next == Duplicated(trace, draws);
        DuplicatedKeeps(trace, draws);
      case Reorder(window) =>
        next := Reordered(trace, window);
      case Noise =>
        next := InjectNoise(trace);
        ghost var draws: seq<Option<nat>> :| |draws| == |trace| && next == Noisy(trace, draws);
        NoisyKeeps(trace, draws);
      case _ =>
        next := Alter(trace, fault);
        return;
    }
    ShapesMutatedBy(trace, next, fault);
  }

  method Alter(trace: seq<Event>, fault: Fault) returns (next: seq<Event>)
    requires fault.Alters()
    ensures Shapes(next) == Shapes(trace)
  {
    hide Shape, Skewed, Delayed, FlippedChain, TxidCorrupted;
    ghost var mono, unix := 0, 0;
    match fault {
      case Skew(m, u) =>
        next := TimestampSkew(trace, m, u);
        mono, unix := m, u;
      case CorruptTxid => next := CorruptTxids(trace);
      case CorruptChainId => next := CorruptChainIds(trace);
      case ForceLate => next := ForceLateFulfillment(trace);
    }
    forall i | 0 <= i < |trace| ensures Shape(next[i]) == Shape(trace[i]) {
      AlteredSameShape(trace[i], next[i], mono, unix);
    }
  }

  /** The whole pipeline: exact on events where nothing alters them, and on their shapes always. */
  method ApplyFaults(original: seq<Event>, faults: seq<Fault>) returns (trace: seq<Event>)
    requires forall f | f in faults :: f.Reorder? ==> f.window > 0
    ensures Mutated(Shapes(original), Shapes(trace), faults)
    ensures (forall f | f in faults :: !f.Alters()) ==> Mutated(original, trace, faults)
  {
    trace := original;
    SubsequenceOfItself(original);
    SubsequenceOfItself(Shapes(original));
    hide IsSubsequence, Shapes;
    for i := 0 to |faults|
      invariant Mutated(Shapes(original), Shapes(trace), faults[..i])
      invariant (forall f | f in faults :: !f.Alters()) ==> Mutated(original, trace, faults[..i])
    {
      hide Mutated, MutatedBy;
      assert faults[i] in faults && faults[..i] + [faults[i]] == faults[..i + 1];
      ghost var before := trace;
      trace := ApplyFault(trace, faults[i]);
      MutatedOnce(Shapes(original), Shapes(before), Shapes(trace), faults[..i], faults[i]);
      if forall f | f in faults :: !f.Alters() {
        MutatedOnce(original, before, trace, faults[..i], faults[i]);
      }
    }
    assert faults[..|faults|] == faults;
  }

  method Reordered<T(0)>(trace: seq<T>, window: nat) returns (out: seq<T>)
    requires window > 0
    ensures if |trace| < 2 then out == trace else ShuffledWithinWindows(out, trace, window)
    ensures multiset(out) == multiset(trace)
  {
    var a := new T[|trace|](k requires 0 <= k < |trace| => trace[k]);
    assert a[..] == trace;
    ReorderRange(a, window);
    out := a[..];
    ReorderedPermutes(out, trace, window);
  }

  lemma ReorderedPermutes<T>(a: seq<T>, b: seq<T>, w: nat)
    requires if |b| < 2 then a == b else ShuffledWithinWindows(a, b, w)
    ensures multiset(a) == multiset(b)
  {
    if |b| >= 2 {
      var n: nat :| SameByWindows(a, b, w, n);
      SameByWindowsPermutes(a, b, w, n);
    }
  }
}
