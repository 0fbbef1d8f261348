/** The plain nonce-to-transaction map that a transaction list stands for, and what each list
    operation means on it. */
module NonceMaps {
  import opened Transactions
  import Sorting

  type NonceMap = map<nat, Tx>

  /** Every transaction is filed under its own nonce. */
  ghost predicate Keyed(m: NonceMap)
  {
    forall n :: n in m ==> m[n].nonce == n
  }

  function Below(m: NonceMap, t: nat): NonceMap
  {
    map n | n in m && n < t :: m[n]
  }

  function NotBelow(m: NonceMap, t: nat): NonceMap
  {
    map n | n in m && n >= t :: m[n]
  }

  function Without(m: NonceMap, drop: Tx -> bool): NonceMap
  {
    map n | n in m && !drop(m[n]) :: m[n]
  }

  ghost predicate IsMin(ks: set<nat>, n: nat)
  {
    n in ks && forall k :: k in ks ==> n <= k
  }

  ghost predicate IsMax(ks: set<nat>, n: nat)
  {
    n in ks && forall k :: k in ks ==> k <= n
  }

  lemma NonEmpty(s: set<nat>)
    ensures s == {} || exists x: nat :: x in s
  {
    if !exists x: nat :: x in s {
      assert s == {};
    }
  }

  lemma {:induction false} ExtremesExist(ks: set<nat>)
    requires ks != {}
    ensures (exists n :: IsMin(ks, n)) && exists n :: IsMax(ks, n)
    decreases ks
  {
    NonEmpty(ks);
    var x :| x in ks;
    if ks == {x} {
      assert IsMin(ks, x) && IsMax(ks, x);
    } else {
      var rest := ks - {x};
      ExtremesExist(rest);
      var lo :| IsMin(rest, lo);
      var hi :| IsMax(rest, hi);
      assert forall k :: k in ks ==> k == x || k in rest;
      assert IsMin(ks, if x < lo then x else lo);
      assert IsMax(ks, if x > hi then x else hi);
    }
  }

  function Min(ks: set<nat>): (n: nat)
    requires ks != {}
    ensures IsMin(ks, n)
  {
    ExtremesExist(ks);
    var n :| n in ks && forall k :: k in ks ==> n <= k;
    n
  }

  function Max(ks: set<nat>): (n: nat)
    requires ks != {}
    ensures IsMax(ks, n)
  {
    ExtremesExist(ks);
    var n :| n in ks && forall k :: k in ks ==> k <= n;
    n
  }

  lemma MinIs(ks: set<nat>, n: nat)
    requires IsMin(ks, n)
    ensures Min(ks) == n
  {
  }

  lemma MaxIs(ks: set<nat>, n: nat)
    requires IsMax(ks, n)
    ensures Max(ks) == n
  {
  }

  /** The nonces of a set in increasing order. */
  function Nonces(ks: set<nat>): seq<nat>
    decreases ks
  {
    if ks == {} then [] else [Min(ks)] + Nonces(ks - {Min(ks)})
  }

  /** The transactions of a map in increasing nonce order. */
  function Flat(m: NonceMap): seq<Tx>
    decreases m.Keys
  {
    if m == map[] then []
    else
      var n := Min(m.Keys);
      assert (m - {n}).Keys == m.Keys - {n};
      [m[n]] + Flat(m - {n})
  }

  lemma {:induction false} Sizes(m: NonceMap)
    ensures |Nonces(m.Keys)| == |m| && |Flat(m)| == |m|
    decreases m.Keys
  {
    if m != map[] {
      var n := Min(m.Keys);
      assert (m - {n}).Keys == m.Keys - {n};
      Sizes(m - {n});
    }
  }

  /** The sorted view lists exactly the contents. */
  lemma {:induction false} FlatMember(m: NonceMap, x: Tx)
    requires Keyed(m)
    ensures x in Flat(m) <==> x.nonce in m && m[x.nonce] == x
    decreases m.Keys
  {
    if m != map[] {
      var n := Min(m.Keys);
      assert (m - {n}).Keys == m.Keys - {n};
      FlatMember(m - {n}, x);
    }
  }

  /** The sorted view is in strictly increasing nonce order. */
  lemma {:induction false} FlatAscends(m: NonceMap)
    requires Keyed(m)
    ensures forall i, j :: 0 <= i < j < |Flat(m)| ==> Flat(m)[i].nonce < Flat(m)[j].nonce
    decreases m.Keys
  {
    if m != map[] {
      var n := Min(m.Keys);
      var rest := m - {n};
      assert rest.Keys == m.Keys - {n};
      FlatAscends(rest);
      forall x | x in Flat(rest) ensures n < x.nonce { FlatMember(rest, x); }
      assert Flat(m) == [m[n]] + Flat(rest);
    }
  }

  lemma {:induction false} FlatRemove(m: NonceMap, n: nat)
    requires n in m
    ensures multiset(Flat(m)) == multiset(Flat(m - {n})) + multiset{m[n]}
    decreases m.Keys
  {
    var lo := Min(m.Keys);
    assert (m - {lo}).Keys == m.Keys - {lo};
    if n != lo {
      assert (m - {n}).Keys == m.Keys - {n};
      FlatRemove(m - {lo}, n);
      MinIs((m - {n}).Keys, lo);
      assert m - {lo} - {n} == m - {n} - {lo};
    }
  }

  lemma {:induction false} NoncesRemove(ks: set<nat>, n: nat)
    requires n in ks
    ensures multiset(Nonces(ks)) == multiset(Nonces(ks - {n})) + multiset{n}
    decreases ks
  {
    var lo := Min(ks);
    if n != lo {
      NoncesRemove(ks - {lo}, n);
      MinIs(ks - {n}, lo);
      assert ks - {lo} - {n} == ks - {n} - {lo};
    }
  }

  lemma {:induction false} NoncesMember(ks: set<nat>, n: nat)
    ensures n in Nonces(ks) <==> n in ks
    decreases ks
  {
    if ks != {} {
      NoncesMember(ks - {Min(ks)}, n);
    }
  }

  /** The greatest nonce comes last. */
  lemma {:induction false} NoncesLast(ks: set<nat>)
    requires ks != {}
    ensures Nonces(ks) == Nonces(ks - {Max(ks)}) + [Max(ks)]
    decreases ks
  {
    var lo, hi := Min(ks), Max(ks);
    if lo == hi {
      assert ks == {lo};
    } else {
      assert hi in ks - {lo};
      NoncesLast(ks - {lo});
      MaxIs(ks - {lo}, hi);
      MinIs(ks - {hi}, lo);
      assert ks - {lo} - {hi} == ks - {hi} - {lo};
    }
  }

  lemma {:induction false} FlatLast(m: NonceMap)
    requires m != map[]
    ensures Flat(m) == Flat(m - {Max(m.Keys)}) + [m[Max(m.Keys)]]
    decreases m.Keys
  {
    var lo, hi := Min(m.Keys), Max(m.Keys);
    assert (m - {lo}).Keys == m.Keys - {lo} && (m - {hi}).Keys == m.Keys - {hi};
    if lo == hi {
      assert m.Keys == {lo};
      assert m - {lo} == map[];
    } else {
      assert hi in m - {lo};
      FlatLast(m - {lo});
      MaxIs((m - {lo}).Keys, hi);
      MinIs((m - {hi}).Keys, lo);
      assert m - {lo} - {hi} == m - {hi} - {lo};
    }
  }

  /** Taking the first element off a sorted permutation. */
  lemma SortedHead<T>(s: seq<T>, key: T -> int, x: T, rest: seq<T>)
    requires Sorting.SortedBy(s, key) && multiset(s) == multiset([x] + rest)
    ensures |s| == |rest| + 1 && s[0] in [x] + rest && key(s[0]) <= key(x)
    ensures s[0] == x ==> multiset(s[1..]) == multiset(rest) && Sorting.SortedBy(s[1..], key)
  {
    assert |s| == |multiset(s)| == |multiset([x] + rest)|;
    assert x in multiset([x] + rest) && s[0] in multiset(s);
    assert x in s;
    TakeHead(s);
    if s[0] == x {
      TakeHead([x] + rest);
      assert ([x] + rest)[1..] == rest;
    }
  }

  lemma TakeHead<T>(s: seq<T>)
    requires s != []
    ensures multiset(s[1..]) == multiset(s) - multiset{s[0]}
  {
    assert s == [s[0]] + s[1..];
  }

  lemma {:induction false} SortedIsNonces(s: seq<nat>, ks: set<nat>)
    requires multiset(s) == multiset(Nonces(ks)) && Sorting.SortedBy(s, Itself)
    ensures s == Nonces(ks)
    decreases ks
  {
    if ks == {} {
      assert |s| == |multiset(s)| == 0;
    } else {
      var rest := Nonces(ks - {Min(ks)});
      assert Nonces(ks) == [Min(ks)] + rest;
      SortedHead(s, Itself, Min(ks), rest);
      NoncesMember(ks, s[0]);
      SortedIsNonces(s[1..], ks - {Min(ks)});
      assert s == [s[0]] + s[1..];
    }
  }

  lemma {:induction false} SortedIsFlat(s: seq<Tx>, m: NonceMap)
    requires Keyed(m) && multiset(s) == multiset(Flat(m)) && Sorting.SortedBy(s, NonceOf)
    ensures s == Flat(m)
    decreases m.Keys
  {
    if m == map[] {
      assert |s| == |multiset(s)| == 0;
    } else {
      var lo := Min(m.Keys);
      var rest := Flat(m - {lo});
      assert (m - {lo}).Keys == m.Keys - {lo};
      assert Flat(m) == [m[lo]] + rest;
      SortedHead(s, NonceOf, m[lo], rest);
      FlatMember(m, s[0]);
      SortedIsFlat(s[1..], m - {lo});
      assert s == [s[0]] + s[1..];
    }
  }

  lemma Associative<T>(a: seq<T>, b: seq<T>, c: seq<T>)
    ensures a + (b + c) == a + b + c
  {
  }

  lemma DropFront<T>(a: seq<T>, b: seq<T>)
    ensures (a + b)[|a|..] == b
  {
  }

  lemma TakeLess<T>(s: seq<T>, k: nat)
    requires 0 < k <= |s|
    ensures s[..k][..k - 1] == s[..k - 1] && s[..k][k - 1] == s[k - 1]
  {
  }

  lemma FlatHead(m: NonceMap, lo: nat)
    requires IsMin(m.Keys, lo)
    ensures Flat(m) == [m[lo]] + Flat(m - {lo})
    ensures (m - {lo}).Keys == m.Keys - {lo}
  {
    assert (m - {lo}).Keys == m.Keys - {lo};
  }

  /** The least nonce below `t` can be set aside before splitting at `t`. */
  lemma BelowLess(m: NonceMap, t: nat, lo: nat)
    requires IsMin(m.Keys, lo) && lo < t
    ensures Below(m - {lo}, t) == Below(m, t) - {lo}
    ensures NotBelow(m - {lo}, t) == NotBelow(m, t)
    ensures IsMin(Below(m, t).Keys, lo)
  {
  }

  lemma AllNotBelow(m: NonceMap, t: nat)
    requires forall n :: n in m ==> n >= t
    ensures Below(m, t) == map[] && NotBelow(m, t) == m
  {
  }

  /** The sorted view splits at any nonce. */
  lemma {:induction false} FlatSplit(m: NonceMap, t: nat)
    ensures Flat(m) == Flat(Below(m, t)) + Flat(NotBelow(m, t))
    decreases m.Keys
  {
    if m == map[] || Min(m.Keys) >= t {
      AllNotBelow(m, t);
      assert Flat(map[]) == [];
    } else {
      var lo := Min(m.Keys);
      FlatHead(m, lo);
      FlatSplit(m - {lo}, t);
      BelowLess(m, t, lo);
      FlatHead(Below(m, t), lo);
      Associative([m[lo]], Flat(Below(m - {lo}, t)), Flat(NotBelow(m, t)));
    }
  }

  /** The `k` lowest nonces of `m`. */
  function Lowest(m: NonceMap, k: nat): (r: NonceMap)
    ensures |r| == if |m| <= k then |m| else k
    ensures r.Keys <= m.Keys && forall n :: n in r ==> r[n] == m[n]
    ensures forall n, d :: n in r && d in m && d !in r ==> n < d
    decreases m.Keys
  {
    if |m| <= k then m
    else
      var hi := Max(m.Keys);
      assert (m - {hi}).Keys == m.Keys - {hi};
      Lowest(m - {hi}, k)
  }

  /** What `Lowest` leaves out, highest nonce first. */
  function Highest(m: NonceMap, k: nat): (s: seq<Tx>)
    decreases m.Keys
  {
    if |m| <= k then []
    else
      var hi := Max(m.Keys);
      assert (m - {hi}).Keys == m.Keys - {hi};
      [m[hi]] + Highest(m - {hi}, k)
  }

  /** `drops` is what `m` holds and `kept` does not, each transaction once and the highest nonce first. */
  ghost predicate DropsRest(m: NonceMap, kept: NonceMap, drops: seq<Tx>)
  {
    (forall x :: x in drops <==> x.nonce in m && x.nonce !in kept && m[x.nonce] == x) &&
    (forall i, j :: 0 <= i < j < |drops| ==> drops[i].nonce > drops[j].nonce) && |drops| + |kept| == |m|
  }

  /** The kept and the dropped transactions are together the contents. */
  lemma {:induction false} LowestAndHighest(m: NonceMap, k: nat)
    requires Keyed(m)
    ensures DropsRest(m, Lowest(m, k), Highest(m, k))
    decreases m.Keys
  {
    if |m| > k {
      var hi := Max(m.Keys);
      assert (m - {hi}).Keys == m.Keys - {hi};
      LowestAndHighest(m - {hi}, k);
      DropsMore(m, m - {hi}, hi, Lowest(m, k), Highest(m - {hi}, k));
    }
  }

  /** The highest nonce is dropped first. */
  lemma DropsMore(m: NonceMap, rest: NonceMap, hi: nat, kept: NonceMap, drops: seq<Tx>)
    requires Keyed(m) && IsMax(m.Keys, hi) && rest == m - {hi} && kept.Keys <= rest.Keys && DropsRest(rest, kept, drops)
    ensures DropsRest(m, kept, [m[hi]] + drops)
  {
    assert |rest| == |m| - 1;
    DropsMoreMembers(m, rest, hi, kept, drops);
    DropsMoreOrder(drops, m[hi]);
  }

  lemma DropsMoreMembers(m: NonceMap, rest: NonceMap, hi: nat, kept: NonceMap, drops: seq<Tx>)
    requires Keyed(m) && IsMax(m.Keys, hi) && rest == m - {hi} && kept.Keys <= rest.Keys
    requires forall x :: x in drops <==> x.nonce in rest && x.nonce !in kept && rest[x.nonce] == x
    ensures forall x :: x in [m[hi]] + drops <==> x.nonce in m && x.nonce !in kept && m[x.nonce] == x
    ensures m[hi].nonce == hi && forall x :: x in drops ==> x.nonce < hi
  {
    forall x ensures x in [m[hi]] + drops <==> x.nonce in m && x.nonce !in kept && m[x.nonce] == x {
      assert x in [m[hi]] + drops <==> x == m[hi] || x in drops;
    }
  }

  lemma DropsMoreOrder(drops: seq<Tx>, top: Tx)
    requires forall i, j :: 0 <= i < j < |drops| ==> drops[i].nonce > drops[j].nonce
    requires forall x :: x in drops ==> x.nonce < top.nonce
    ensures forall i, j :: 0 <= i < j < |[top] + drops| ==> ([top] + drops)[i].nonce > ([top] + drops)[j].nonce
  {
    var more := [top] + drops;
    forall i, j | 0 <= i < j < |more| ensures more[i].nonce > more[j].nonce {
      assert more[j] == drops[j - 1] && drops[j - 1] in drops;
    }
  }

  /** The first nonce from `n` on that is missing. */
  function RunEnd(m: NonceMap, n: nat): (e: nat)
    ensures n <= e && e !in m
    ensures forall k :: n <= k < e ==> k in m
    decreases NotBelow(m, n).Keys
  {
    if n !in m then n
    else
      assert NotBelow(m, n + 1).Keys == NotBelow(m, n).Keys - {n};
      RunEnd(m, n + 1)
  }

  /** The maximal run of consecutive nonces from the least one, provided that one is at most `start`. */
  function ReadyRun(m: NonceMap, start: nat): NonceMap
  {
    if m == map[] || Min(m.Keys) > start then map[]
    else Below(m, RunEnd(m, Min(m.Keys)))
  }
}
