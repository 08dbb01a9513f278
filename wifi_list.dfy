/**
 * The network list of the frontend: the signal-strength colour, icon and label (the same three
 * if-chains appear in the connected-network card), and the list sorted by signal.
 */
module WifiList {
  import opened Wifi

  datatype ViewMode = Grid | List
  datatype SortBy = BySignal | ByName

  /** `useState('list')` and `useState('signal')`. */
  datatype ListState = ListState(viewMode: ViewMode, sortBy: SortBy)

  function InitialListState(): (st: ListState)
    ensures st.viewMode == List && st.sortBy == BySignal
  {
    ListState(List, BySignal)
  }

  function SignalStrengthColor(signal: int): (r: string)
    ensures r in Colors
  {
    if signal >= 80 then "text-emerald-600"
    else if signal >= 60 then "text-teal-500"
    else if signal >= 40 then "text-amber-500"
    else if signal >= 20 then "text-orange-500"
    else "text-rose-500"
  }

  function SignalStrengthIcon(signal: int): (r: string)
    ensures r in Icons
  {
    if signal >= 80 then "▂▄▆█"
    else if signal >= 60 then "▂▄▆▁"
    else if signal >= 40 then "▂▄▁▁"
    else if signal >= 20 then "▂▁▁▁"
    else "▁▁▁▁"
  }

  function SignalStrengthLabel(signal: int): (r: string)
    ensures r in Labels
  {
    if signal >= 80 then "Excellent"
    else if signal >= 60 then "Good"
    else if signal >= 40 then "Fair"
    else if signal >= 20 then "Poor"
    else "Very Poor"
  }

  /** The five strengths, strongest first. */
  const Colors: seq<string> := ["text-emerald-600", "text-teal-500", "text-amber-500", "text-orange-500", "text-rose-500"]
  const Icons: seq<string> := ["▂▄▆█", "▂▄▆▁", "▂▄▁▁", "▂▁▁▁", "▁▁▁▁"]
  const Labels: seq<string> := ["Excellent", "Good", "Fair", "Poor", "Very Poor"]

  /** Bands of 20 points: 0 for 80 and above, 4 below 20. */
  function Bucket(signal: int): (b: nat)
    ensures b < 5
  {
    var band := signal / 20;
    if band >= 4 then 0 else if band <= 0 then 4 else 4 - band
  }

  /** The three if-chains share their thresholds: each picks the entry of the same band. */
  lemma SameBucket(signal: int)
    ensures SignalStrengthColor(signal) == Colors[Bucket(signal)]
    ensures SignalStrengthIcon(signal) == Icons[Bucket(signal)]
    ensures SignalStrengthLabel(signal) == Labels[Bucket(signal)]
  {
    var band := signal / 20;
    assert signal >= 80 <==> band >= 4;
    assert 60 <= signal < 80 <==> band == 3;
    assert 40 <= signal < 60 <==> band == 2;
    assert 20 <= signal < 40 <==> band == 1;
  }

  /** A stronger signal never falls in a weaker band. */
  lemma BucketMonotone(s1: int, s2: int)
    requires s1 <= s2
    ensures Bucket(s2) <= Bucket(s1)
  {
    assert s1 / 20 <= s2 / 20;
  }

  /** The thresholds are 80, 60, 40 and 20, inclusive from below. */
  lemma BucketThresholds()
    ensures Bucket(80) == 0 && Bucket(79) == 1 && Bucket(60) == 1 && Bucket(59) == 2
    ensures Bucket(40) == 2 && Bucket(39) == 3 && Bucket(20) == 3 && Bucket(19) == 4
  {
  }

  /** Inserting x into a list sorted by signal (descending): after every entry at least as strong. */
  function Insert(x: WifiNetwork, sorted: seq<WifiNetwork>): (r: seq<WifiNetwork>)
    ensures multiset(r) == multiset(sorted) + multiset{x}
  {
    if sorted == [] then [x]
    else if x.signal > sorted[0].signal then [x] + sorted
    else
      assert sorted == [sorted[0]] + sorted[1..];
      [sorted[0]] + Insert(x, sorted[1..])
  }

  /** `[...networks].sort((a, b) => b.signal - a.signal)`: a new list; the sort is stable. */
  function SortedBySignal(networks: seq<WifiNetwork>): (r: seq<WifiNetwork>)
    ensures multiset(r) == multiset(networks)
  {
    if networks == [] then []
    else
      var n := |networks| - 1;
      assert networks == networks[..n] + [networks[n]];
      Insert(networks[n], SortedBySignal(networks[..n]))
  }

  predicate NonIncreasing(s: seq<WifiNetwork>) {
    forall i, j :: 0 <= i < j < |s| ==> s[i].signal >= s[j].signal
  }

  lemma {:induction false} InsertKeepsOrder(x: WifiNetwork, sorted: seq<WifiNetwork>)
    requires NonIncreasing(sorted)
    ensures NonIncreasing(Insert(x, sorted))
  {
    if sorted != [] && x.signal <= sorted[0].signal {
      InsertKeepsOrder(x, sorted[1..]);
      var rest := Insert(x, sorted[1..]);
      assert multiset(rest) == multiset(sorted[1..]) + multiset{x};
      forall j | 0 <= j < |rest| ensures sorted[0].signal >= rest[j].signal {
        assert rest[j] in multiset(rest);
        if rest[j] != x {
          assert rest[j] in sorted[1..];
        }
      }
    }
  }

  /** In signal mode the list is ordered by signal, strongest first. */
  lemma {:induction false} SortedBySignalOrdered(networks: seq<WifiNetwork>)
    ensures NonIncreasing(SortedBySignal(networks))
  {
    if networks != [] {
      var n := |networks| - 1;
      SortedBySignalOrdered(networks[..n]);
      InsertKeepsOrder(networks[n], SortedBySignal(networks[..n]));
    }
  }

  /** The entries with signal v, in their order. */
  function WithSignal(s: seq<WifiNetwork>, v: nat): seq<WifiNetwork> {
    if s == [] then [] else (if s[0].signal == v then [s[0]] else []) + WithSignal(s[1..], v)
  }

  lemma {:induction false} WithSignalAppend(a: seq<WifiNetwork>, b: seq<WifiNetwork>, v: nat)
    ensures WithSignal(a + b, v) == WithSignal(a, v) + WithSignal(b, v)
  {
    if a == [] {
      assert a + b == b;
    } else {
      assert a + b == [a[0]] + (a[1..] + b) && a == [a[0]] + a[1..];
      WithSignalCons(a[0], a[1..] + b, v);
      WithSignalCons(a[0], a[1..], v);
      WithSignalAppend(a[1..], b, v);
    }
  }

  lemma WithSignalSnoc(s: seq<WifiNetwork>, v: nat)
    requires s != []
    ensures var n := |s| - 1;
            WithSignal(s, v) == WithSignal(s[..n], v) + (if s[n].signal == v then [s[n]] else [])
  {
    var n := |s| - 1;
    assert s == s[..n] + [s[n]];
    WithSignalAppend(s[..n], [s[n]], v);
    assert [s[n]][1..] == [];
  }

  lemma {:induction false} WithSignalWeaker(s: seq<WifiNetwork>, v: nat)
    requires forall i :: 0 <= i < |s| ==> s[i].signal < v
    ensures WithSignal(s, v) == []
  {
    if s != [] {
      WithSignalWeaker(s[1..], v);
    }
  }

  lemma {:induction false} InsertStable(x: WifiNetwork, sorted: seq<WifiNetwork>, v: nat)
    requires NonIncreasing(sorted)
    ensures WithSignal(Insert(x, sorted), v) == WithSignal(sorted, v) + (if x.signal == v then [x] else [])
  {
    if sorted == [] {
      WithSignalCons(x, [], v);
    } else if x.signal > sorted[0].signal {
      InsertStableFront(x, sorted, v);
    } else {
      NonIncreasingTail(sorted);
      InsertStable(x, sorted[1..], v);
      InsertStableBehind(x, sorted, v);
    }
  }

  /** x goes behind the head; the rest is the insertion into the tail. */
  lemma InsertStableBehind(x: WifiNetwork, sorted: seq<WifiNetwork>, v: nat)
    requires sorted != [] && x.signal <= sorted[0].signal
    requires WithSignal(Insert(x, sorted[1..]), v) == WithSignal(sorted[1..], v) + (if x.signal == v then [x] else [])
    ensures WithSignal(Insert(x, sorted), v) == WithSignal(sorted, v) + (if x.signal == v then [x] else [])
  {
    var head, tail := sorted[0], sorted[1..];
    var rest := Insert(x, tail);
    var h := if head.signal == v then [head] else [];
    var e := if x.signal == v then [x] else [];
    InsertBehind(x, sorted);
    WithSignalCons(head, rest, v);
    WithSignalCons(head, tail, v);
    HeadTail(sorted);
    Regroup(WithSignal(Insert(x, sorted), v), WithSignal(rest, v), WithSignal(tail, v), WithSignal(sorted, v), h, e);
  }

  lemma HeadTail<T>(s: seq<T>)
    requires s != []
    ensures s == [s[0]] + s[1..]
  {
  }

  /** a == h + b, b == c + e and d == h + c give a == d + e. */
  lemma Regroup<T>(a: seq<T>, b: seq<T>, c: seq<T>, d: seq<T>, h: seq<T>, e: seq<T>)
    requires a == h + b && b == c + e && d == h + c
    ensures a == d + e
  {
  }

  /** An entry no stronger than the head goes behind it. */
  lemma InsertBehind(x: WifiNetwork, sorted: seq<WifiNetwork>)
    requires sorted != [] && x.signal <= sorted[0].signal
    ensures Insert(x, sorted) == [sorted[0]] + Insert(x, sorted[1..])
  {
  }

  /** x goes in front of a list whose entries are all weaker than it. */
  lemma InsertStableFront(x: WifiNetwork, sorted: seq<WifiNetwork>, v: nat)
    requires NonIncreasing(sorted) && sorted != [] && x.signal > sorted[0].signal
    ensures WithSignal(Insert(x, sorted), v) == WithSignal(sorted, v) + (if x.signal == v then [x] else [])
  {
    assert Insert(x, sorted) == [x] + sorted;
    WithSignalCons(x, sorted, v);
    if x.signal == v {
      WithSignalWeaker(sorted, v);
    }
  }

  lemma NonIncreasingTail(s: seq<WifiNetwork>)
    requires NonIncreasing(s) && s != []
    ensures NonIncreasing(s[1..])
  {
    forall i, j | 0 <= i < j < |s| - 1 ensures s[1..][i].signal >= s[1..][j].signal {
      assert s[1..][i] == s[i + 1] && s[1..][j] == s[j + 1];
    }
  }

  lemma WithSignalCons(a: WifiNetwork, s: seq<WifiNetwork>, v: nat)
    ensures WithSignal([a] + s, v) == (if a.signal == v then [a] else []) + WithSignal(s, v)
  {
    assert ([a] + s)[0] == a && ([a] + s)[1..] == s;
  }

  /** The sort is stable: the entries of equal signal keep their relative order. */
  lemma {:induction false} SortedBySignalStable(networks: seq<WifiNetwork>, v: nat)
    ensures WithSignal(SortedBySignal(networks), v) == WithSignal(networks, v)
  {
    if networks != [] {
      var n := |networks| - 1;
      var init, last := networks[..n], networks[n];
      var sorted0 := SortedBySignal(init);
      var x := if last.signal == v then [last] else [];
      SortedBySignalStable(init, v);
      SortedBySignalOrdered(init);
      InsertStable(last, sorted0, v);
      assert SortedBySignal(networks) == Insert(last, sorted0);
      WithSignalSnoc(networks, v);
    }
  }

  lemma {:induction false} WithSignalMembers(s: seq<WifiNetwork>, v: nat)
    ensures forall w :: w in WithSignal(s, v) ==> w in s && w.signal == v
    ensures forall i :: 0 <= i < |s| && s[i].signal == v ==> s[i] in WithSignal(s, v)
  {
    if s != [] {
      WithSignalMembers(s[1..], v);
      forall i | 0 <= i < |s| && s[i].signal == v ensures s[i] in WithSignal(s, v) {
        if i > 0 {
          assert s[i] == s[1..][i - 1];
        }
      }
    }
  }

  lemma HeadsAgree(a: seq<WifiNetwork>, b: seq<WifiNetwork>)
    requires a != [] && b != [] && NonIncreasing(a) && NonIncreasing(b)
    requires forall v: nat :: WithSignal(a, v) == WithSignal(b, v)
    ensures a[0] == b[0]
  {
    var va, vb := a[0].signal, b[0].signal;
    WithSignalMembers(a, va);
    WithSignalMembers(b, vb);
    assert WithSignal(a, va) == WithSignal(b, va);
    assert WithSignal(a, vb) == WithSignal(b, vb);
    WithSignalMembers(b, va);
    WithSignalMembers(a, vb);
    assert a[0] in b;
    assert b[0] in a;
    assert va == vb;
    assert WithSignal(a, va)[0] == a[0] && WithSignal(b, va)[0] == b[0];
  }

  lemma TailsAgree(a: seq<WifiNetwork>, b: seq<WifiNetwork>)
    requires a != [] && b != [] && a[0] == b[0]
    requires forall v: nat :: WithSignal(a, v) == WithSignal(b, v)
    ensures forall v: nat :: WithSignal(a[1..], v) == WithSignal(b[1..], v)
  {
    forall v: nat ensures WithSignal(a[1..], v) == WithSignal(b[1..], v) {
      var h := if a[0].signal == v then [a[0]] else [];
      var x, y := WithSignal(a[1..], v), WithSignal(b[1..], v);
      assert WithSignal(a, v) == h + x;
      assert WithSignal(b, v) == h + y;
      assert (h + x)[|h|..] == x && (h + y)[|h|..] == y;
    }
  }

  lemma NoneWithoutEntries(a: seq<WifiNetwork>, b: seq<WifiNetwork>)
    requires a != [] && b == []
    ensures WithSignal(a, a[0].signal) != WithSignal(b, a[0].signal)
  {
    WithSignalMembers(a, a[0].signal);
  }

  /** Ordered by signal and stable determine the result: a list with both properties that has the
      same entries of each signal value, in the same order, is the sorted list. */
  lemma {:induction false} StableSortUnique(a: seq<WifiNetwork>, b: seq<WifiNetwork>)
    requires NonIncreasing(a) && NonIncreasing(b)
    requires forall v: nat :: WithSignal(a, v) == WithSignal(b, v)
    ensures a == b
    decreases |a|
  {
    if a != [] && b == [] {
      NoneWithoutEntries(a, b);
    } else if a == [] && b != [] {
      NoneWithoutEntries(b, a);
    } else if a != [] {
      HeadsAgree(a, b);
      TailsAgree(a, b);
      StableSortUnique(a[1..], b[1..]);
      assert a == [a[0]] + a[1..] && b == [b[0]] + b[1..];
    }
  }

  /** So the sorted list is the only rearrangement of networks that is ordered by signal and
      keeps entries of equal signal in their input order. */
  lemma SortedBySignalIsTheStableSort(networks: seq<WifiNetwork>, r: seq<WifiNetwork>)
    requires NonIncreasing(r)
    requires forall v: nat :: WithSignal(r, v) == WithSignal(networks, v)
    ensures r == SortedBySignal(networks)
  {
    SortedBySignalOrdered(networks);
    forall v: nat ensures WithSignal(r, v) == WithSignal(SortedBySignal(networks), v) {
      SortedBySignalStable(networks, v);
    }
    StableSortUnique(r, SortedBySignal(networks));
  }
}
