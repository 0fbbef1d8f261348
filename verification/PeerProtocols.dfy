/** Multiplexing of subprotocol messages over one connection (p2p/peer.go, p2p/protocol.go), as in the
    "Capability Messaging" section of the RLPx specification. */
module PeerProtocols {
  import opened Transactions

  const BASE_PROTOCOL_LENGTH := 16

  datatype Cap = Cap(name: string, version: nat)

  datatype Protocol = Protocol(name: string, version: nat, length: nat)

  /** A running protocol: the version that both sides speak and where its message codes start. */
  datatype Running = Running(version: nat, length: nat, offset: nat)

  // ---- the order of names ----

  predicate Less(a: string, b: string)
  {
    if b == "" then false
    else if a == "" then true
    else if a[0] == b[0] then Less(a[1..], b[1..])
    else a[0] < b[0]
  }

  lemma {:induction false} LessTotal(a: string, b: string)
    ensures a == b || Less(a, b) || Less(b, a)
    ensures !(Less(a, b) && Less(b, a)) && !Less(a, a)
  {
    if a != "" && b != "" && a[0] == b[0] {
      LessTotal(a[1..], b[1..]);
      assert a[1..] == b[1..] ==> a == [a[0]] + a[1..] == [b[0]] + b[1..] == b;
    }
    NotLessItself(a);
  }

  lemma {:induction false} NotLessItself(a: string)
    ensures !Less(a, a)
  {
    if a != "" {
      NotLessItself(a[1..]);
    }
  }

  lemma {:induction false} LessTransitive(a: string, b: string, c: string)
    requires Less(a, b) && Less(b, c)
    ensures Less(a, c)
  {
    if a != "" && a[0] == b[0] && b[0] == c[0] {
      LessTransitive(a[1..], b[1..], c[1..]);
    }
  }

  // ---- sorting the capabilities ----

  /** In order by name, then by version. */
  predicate Before(a: Cap, b: Cap)
  {
    Less(a.name, b.name) || (a.name == b.name && a.version < b.version)
  }

  ghost predicate InOrder(cs: seq<Cap>)
  {
    forall i, j {:trigger cs[i], cs[j]} :: 0 <= i < j < |cs| ==> !Before(cs[j], cs[i])
  }

  lemma BeforeTotal(a: Cap, b: Cap, c: Cap)
    ensures !Before(a, a) && !(Before(a, b) && Before(b, a))
    ensures a == b || Before(a, b) || Before(b, a)
    ensures Before(a, b) && Before(b, c) ==> Before(a, c)
  {
    LessTotal(a.name, b.name);
    LessTotal(a.name, a.name);
    if Less(a.name, b.name) && Less(b.name, c.name) {
      LessTransitive(a.name, b.name, c.name);
    }
  }

  /** The place of a capability in a sorted list. */
  method PlaceFor(cs: seq<Cap>, c: Cap) returns (k: nat)
    requires InOrder(cs)
    ensures k <= |cs| && (forall i :: 0 <= i < k ==> !Before(c, cs[i]))
    ensures forall i :: k <= i < |cs| ==> Before(c, cs[i])
  {
    k := |cs|;
    while k > 0 && Before(c, cs[k - 1])
      invariant 0 <= k <= |cs| && forall i :: k <= i < |cs| ==> Before(c, cs[i])
    {
      k := k - 1;
    }
    if k > 0 {
      forall i | 0 <= i < k ensures !Before(c, cs[i]) {
        BeforeTotal(c, cs[i], cs[k - 1]);
        BeforeTotal(cs[k - 1], cs[i], c);
        BeforeTotal(cs[i], cs[k - 1], c);
      }
    }
  }

  /** Sorts capabilities by name and version. */
  method SortCaps(caps: seq<Cap>) returns (cs: seq<Cap>)
    ensures InOrder(cs) && multiset(cs) == multiset(caps)
  {
    cs := [];
    for i := 0 to |caps|
      invariant InOrder(cs) && multiset(cs) == multiset(caps[..i])
    {
      var k := PlaceFor(cs, caps[i]);
      Inserted(cs, k, caps[i]);
      cs := cs[..k] + [caps[i]] + cs[k..];
      assert caps[..i + 1] == caps[..i] + [caps[i]];
    }
    assert caps[..|caps|] == caps;
  }

  lemma Inserted(cs: seq<Cap>, k: nat, c: Cap)
    requires InOrder(cs) && k <= |cs| && (forall i :: 0 <= i < k ==> !Before(c, cs[i]))
    requires forall i :: k <= i < |cs| ==> Before(c, cs[i])
    ensures InOrder(cs[..k] + [c] + cs[k..]) && multiset(cs[..k] + [c] + cs[k..]) == multiset(cs) + multiset{c}
  {
    var r := cs[..k] + [c] + cs[k..];
    assert cs == cs[..k] + cs[k..];
    forall i, j | 0 <= i < j < |r| ensures !Before(r[j], r[i]) {
      var x, y := r[i], r[j];
      BeforeTotal(c, y, c);
      assert i < k ==> x == cs[i];
      assert i > k ==> x == cs[i - 1];
      assert j < k ==> y == cs[j];
      assert j > k ==> y == cs[j - 1];
    }
  }

  // ---- matching ----

  /** The local protocol of that name and version, the first if there are several. */
  function Local(protocols: seq<Protocol>, name: string, version: nat): Option<Protocol>
  {
    if protocols == [] then None
    else if protocols[0].name == name && protocols[0].version == version then Some(protocols[0])
    else Local(protocols[1..], name, version)
  }

  ghost predicate Shared(protocols: seq<Protocol>, caps: set<Cap>, name: string, version: nat)
  {
    Cap(name, version) in caps && Local(protocols, name, version).Some?
  }

  type Matched = map<string, Running>

  function LengthIn(result: Matched, name: string): nat
  {
    if name in result then result[name].length else 0
  }

  /** The message codes that the named protocols take together. */
  function Lengths(result: Matched, names: seq<string>): nat
  {
    if names == [] then 0 else Lengths(result, names[..|names| - 1]) + LengthIn(result, names[|names| - 1])
  }

  ghost predicate Increasing(names: seq<string>)
  {
    forall i, j {:trigger names[i], names[j]} :: 0 <= i < j < |names| ==> Less(names[i], names[j])
  }

  /** The entry of a name: the highest version that both sides have, with the local length. */
  ghost predicate Best(protocols: seq<Protocol>, caps: set<Cap>, result: Matched, name: string)
  {
    (name in result ==>
       Shared(protocols, caps, name, result[name].version) &&
       result[name].length == Local(protocols, name, result[name].version).value.length) &&
    forall v: nat {:trigger Shared(protocols, caps, name, v)} ::
      Shared(protocols, caps, name, v) ==> name in result && v <= result[name].version
  }

  /** The codes of the names in order follow each other without gap, from the base length on. */
  ghost predicate Contiguous(result: Matched, order: seq<string>)
  {
    forall k {:trigger order[k]} :: 0 <= k < |order| ==>
      order[k] in result && result[order[k]].offset == BASE_PROTOCOL_LENGTH + Lengths(result, order[..k])
  }

  ghost predicate Layout(protocols: seq<Protocol>, caps: set<Cap>, result: Matched, order: seq<string>)
  {
    Increasing(order) && (forall n {:trigger n in result} :: n in result <==> n in order) &&
    Contiguous(result, order) &&
    forall n {:trigger Best(protocols, caps, result, n)} :: Best(protocols, caps, result, n)
  }

  lemma {:induction false} LengthsFrame(a: Matched, b: Matched, names: seq<string>)
    requires forall i {:trigger names[i]} :: 0 <= i < |names| ==> LengthIn(a, names[i]) == LengthIn(b, names[i])
    ensures Lengths(a, names) == Lengths(b, names)
  {
    if names != [] {
      LengthsFrame(a, b, names[..|names| - 1]);
    }
  }

  /** A capability that is not before any seen one takes or gets the last place. */
  lemma LastPlace(protocols: seq<Protocol>, seen: set<Cap>, result: Matched, order: seq<string>, c: Cap)
    requires Layout(protocols, seen, result, order) && forall d {:trigger d in seen} :: d in seen ==> !Before(c, d)
    ensures c.name in result ==> order != [] && order[|order| - 1] == c.name && result[c.name].version <= c.version
    ensures c.name !in result ==> Increasing(order + [c.name])
  {
    forall n | n in order ensures n == c.name || Less(n, c.name) {
      NotAfter(protocols, seen, result, c, n);
    }
    if c.name in result {
      assert Best(protocols, seen, result, c.name) && Cap(c.name, result[c.name].version) in seen;
      GreatestLast(order, c.name);
    }
  }

  /** No name that is taken comes after `c`. */
  lemma NotAfter(protocols: seq<Protocol>, seen: set<Cap>, result: Matched, c: Cap, n: string)
    requires n in result && Best(protocols, seen, result, n)
    requires forall d {:trigger d in seen} :: d in seen ==> !Before(c, d)
    ensures n == c.name || Less(n, c.name)
  {
    assert Cap(n, result[n].version) in seen;
    LessTotal(n, c.name);
  }

  /** The greatest of the names in order is the last one. */
  lemma GreatestLast(order: seq<string>, name: string)
    requires Increasing(order) && name in order && forall n :: n in order ==> n == name || Less(n, name)
    ensures order != [] && order[|order| - 1] == name
  {
    var k :| 0 <= k < |order| && order[k] == name;
    var last := order[|order| - 1];
    if k < |order| - 1 {
      assert Less(name, last);
      LessTotal(name, last);
    }
  }

  ghost function Placed(order: seq<string>, result: Matched, name: string): seq<string>
  {
    if name in result then order else order + [name]
  }

  /** The codes taken before the place of `name`. */
  ghost function CodesBefore(result: Matched, order: seq<string>, name: string): nat
  {
    Lengths(result, if name in result && order != [] then order[..|order| - 1] else order)
  }

  /** Taking up a shared capability. */
  lemma TakeUp(protocols: seq<Protocol>, seen: set<Cap>, result: Matched, order: seq<string>, c: Cap, r: Matched)
    requires Layout(protocols, seen, result, order) && forall d {:trigger d in seen} :: d in seen ==> !Before(c, d)
    requires Local(protocols, c.name, c.version).Some?
    requires r == result[c.name := Running(c.version, Local(protocols, c.name, c.version).value.length,
                                           BASE_PROTOCOL_LENGTH + CodesBefore(result, order, c.name))]
    ensures Layout(protocols, seen + {c}, r, Placed(order, result, c.name))
  {
    LastPlace(protocols, seen, result, order, c);
    TakeUpCodes(result, order, c.name, r);
    forall n ensures Best(protocols, seen + {c}, r, n) {
      assert Best(protocols, seen, result, n);
      TakeUpBest(protocols, seen, result, c, r, n);
    }
    var order2 := Placed(order, result, c.name);
    forall n ensures n in r <==> n in order2 {}
  }

  lemma TakeUpBest(protocols: seq<Protocol>, seen: set<Cap>, result: Matched, c: Cap, r: Matched, n: string)
    requires Best(protocols, seen, result, n) && Local(protocols, c.name, c.version).Some?
    requires c.name in result ==> result[c.name].version <= c.version
    requires r.Keys == result.Keys + {c.name} && (forall m :: m in result && m != c.name ==> r[m] == result[m])
    requires r[c.name].version == c.version && r[c.name].length == Local(protocols, c.name, c.version).value.length
    ensures Best(protocols, seen + {c}, r, n)
  {
    forall v: nat | Shared(protocols, seen + {c}, n, v) ensures n in r && v <= r[n].version {
      if Cap(n, v) != c {
        assert Shared(protocols, seen, n, v);
      }
    }
  }

  lemma TakeUpCodes(result: Matched, order: seq<string>, name: string, r: Matched)
    requires Increasing(order) && Contiguous(result, order)
    requires name in result ==> order != [] && order[|order| - 1] == name
    requires name !in result ==> name !in order
    requires r.Keys == result.Keys + {name} && (forall n :: n in result && n != name ==> r[n] == result[n])
    requires r[name].offset == BASE_PROTOCOL_LENGTH + CodesBefore(result, order, name)
    ensures Contiguous(r, Placed(order, result, name))
  {
    var order2 := Placed(order, result, name);
    forall k | 0 <= k < |order2|
      ensures order2[k] in r && r[order2[k]].offset == BASE_PROTOCOL_LENGTH + Lengths(r, order2[..k])
    {
      if k < |order2| - 1 {
        EarlierPlace(result, order, name, r, k);
      } else {
        LatestPlace(result, order, name, r);
      }
    }
  }

  /** The last place is that of `name`; those before it are as they were. */
  lemma OnlyLast(result: Matched, order: seq<string>, name: string, k: nat)
    requires Increasing(order) && k < |Placed(order, result, name)| - 1
    requires name in result ==> order != [] && order[|order| - 1] == name
    requires name !in result ==> name !in order
    ensures k < |order| && Placed(order, result, name)[k] == order[k] != name
    ensures Placed(order, result, name)[..k] == order[..k]
  {
    var order2 := Placed(order, result, name);
    NotName(order, order2, name, k, |order2| - 1);
  }

  lemma EarlierLengths(result: Matched, order: seq<string>, name: string, r: Matched, k: nat)
    requires Increasing(order) && k <= |Placed(order, result, name)| - 1
    requires name in result ==> order != [] && order[|order| - 1] == name
    requires name !in result ==> name !in order
    requires r.Keys == result.Keys + {name} && (forall n :: n in result && n != name ==> r[n] == result[n])
    ensures k <= |order| && Lengths(r, order[..k]) == Lengths(result, order[..k])
  {
    forall j | 0 <= j < k ensures LengthIn(r, order[..k][j]) == LengthIn(result, order[..k][j]) {
      OnlyLast(result, order, name, j);
    }
    LengthsFrame(r, result, order[..k]);
  }

  lemma EarlierPlace(result: Matched, order: seq<string>, name: string, r: Matched, k: nat)
    requires Increasing(order) && Contiguous(result, order) && k < |Placed(order, result, name)| - 1
    requires name in result ==> order != [] && order[|order| - 1] == name
    requires name !in result ==> name !in order
    requires r.Keys == result.Keys + {name} && (forall n :: n in result && n != name ==> r[n] == result[n])
    ensures var order2 := Placed(order, result, name);
            order2[k] in r && r[order2[k]].offset == BASE_PROTOCOL_LENGTH + Lengths(r, order2[..k])
  {
    OnlyLast(result, order, name, k);
    EarlierLengths(result, order, name, r, k);
  }

  lemma LatestPlace(result: Matched, order: seq<string>, name: string, r: Matched)
    requires Increasing(order)
    requires name in result ==> order != [] && order[|order| - 1] == name
    requires name !in result ==> name !in order
    requires r.Keys == result.Keys + {name} && (forall n :: n in result && n != name ==> r[n] == result[n])
    requires r[name].offset == BASE_PROTOCOL_LENGTH + CodesBefore(result, order, name)
    ensures var order2 := Placed(order, result, name);
            order2 != [] && order2[|order2| - 1] == name &&
            r[name].offset == BASE_PROTOCOL_LENGTH + Lengths(r, order2[..|order2| - 1])
  {
    var order2 := Placed(order, result, name);
    EarlierLengths(result, order, name, r, |order2| - 1);
    assert order2[..|order2| - 1] == order[..|order2| - 1];
    assert name !in result ==> order[..|order|] == order;
  }

  lemma NotName(order: seq<string>, order2: seq<string>, name: string, k: nat, last: nat)
    requires Increasing(order) && k < last < |order2| && order2[last] == name
    requires order2 == order || (order2 == order + [name] && name !in order)
    ensures order2[k] != name
  {
    if order2 == order {
      assert Less(order[k], order[last]);
      LessTotal(name, name);
    }
  }

  /** The first local protocol that a capability names. */
  method FindLocal(protocols: seq<Protocol>, c: Cap) returns (p: Option<Protocol>)
    ensures p == Local(protocols, c.name, c.version)
  {
    for i := 0 to |protocols|
      invariant Local(protocols, c.name, c.version) == Local(protocols[i..], c.name, c.version)
    {
      assert protocols[i..][0] == protocols[i] && protocols[i..][1..] == protocols[i + 1..];
      if protocols[i].name == c.name && protocols[i].version == c.version {
        return Some(protocols[i]);
      }
    }
    p := None;
  }

  ghost function Set(cs: seq<Cap>): set<Cap>
  {
    set c | c in cs
  }

  /** matchProtocols: goes through the sorted capabilities; a higher version of the same name takes the
      place of the lower one. */
  method MatchProtocols(protocols: seq<Protocol>, caps: seq<Cap>) returns (result: Matched, ghost order: seq<string>)
    ensures Layout(protocols, Set(caps), result, order)
    ensures exists names {:trigger Layout(protocols, Set(caps), result, names)} ::
      Layout(protocols, Set(caps), result, names)
  {
    var cs := SortCaps(caps);
    var offset := BASE_PROTOCOL_LENGTH;
    result, order := map[], [];
    assert Layout(protocols, {}, result, order);
    assert Set(cs[..0]) == {};
    for i := 0 to |cs|
      invariant Layout(protocols, Set(cs[..i]), result, order)
      invariant offset == BASE_PROTOCOL_LENGTH + Lengths(result, order)
    {
      SetNext(cs, i);
      result, order, offset := MatchOne(protocols, Set(cs[..i]), result, order, offset, cs[i]);
    }
    SameMembers(cs, caps);
  }

  lemma SameMembers(cs: seq<Cap>, caps: seq<Cap>)
    requires multiset(cs) == multiset(caps)
    ensures cs[..|cs|] == cs && Set(cs) == Set(caps)
  {
    forall c ensures c in cs <==> c in caps {
      assert c in multiset(cs) <==> c in multiset(caps);
    }
  }

  method MatchOne(protocols: seq<Protocol>, ghost seen: set<Cap>, result: Matched, ghost order: seq<string>,
                  offset: nat, c: Cap)
    returns (r: Matched, ghost order2: seq<string>, offset2: nat)
    requires Layout(protocols, seen, result, order) && offset == BASE_PROTOCOL_LENGTH + Lengths(result, order)
    requires forall d {:trigger d in seen} :: d in seen ==> !Before(c, d)
    ensures Layout(protocols, seen + {c}, r, order2) && offset2 == BASE_PROTOCOL_LENGTH + Lengths(r, order2)
  {
    r, order2, offset2 := result, order, offset;
    var proto := FindLocal(protocols, c);
    if proto.None? {
      PassOver(protocols, seen, result, order, c);
      return;
    }
    OffsetNotBelow(protocols, seen, result, order, c);
    if c.name in result {
      offset2 := offset - result[c.name].length;
    }
    r := result[c.name := Running(proto.value.version, proto.value.length, offset2)];
    order2 := Placed(order, result, c.name);
    TakenUp(protocols, seen, result, order, offset, c, proto.value, offset2, r);
    offset2 := offset2 + proto.value.length;
  }

  /** A shared capability in its place. */
  lemma TakenUp(protocols: seq<Protocol>, seen: set<Cap>, result: Matched, order: seq<string>, offset: nat, c: Cap,
                proto: Protocol, here: int, r: Matched)
    requires Layout(protocols, seen, result, order) && offset == BASE_PROTOCOL_LENGTH + Lengths(result, order)
    requires forall d {:trigger d in seen} :: d in seen ==> !Before(c, d)
    requires Local(protocols, c.name, c.version) == Some(proto) && here >= 0
    requires here == offset - (if c.name in result then result[c.name].length else 0)
    requires r == result[c.name := Running(proto.version, proto.length, here)]
    ensures var order2 := Placed(order, result, c.name);
            Layout(protocols, seen + {c}, r, order2) &&
            here + proto.length == BASE_PROTOCOL_LENGTH + Lengths(r, order2)
  {
    HereIs(protocols, seen, result, order, offset, c, here);
    SameRunning(protocols, result, order, c, proto, here, r);
    TakeUp(protocols, seen, result, order, c, r);
    OffsetNext(protocols, seen, result, order, c, r);
  }

  lemma HereIs(protocols: seq<Protocol>, seen: set<Cap>, result: Matched, order: seq<string>, offset: nat, c: Cap,
               here: int)
    requires Layout(protocols, seen, result, order) && offset == BASE_PROTOCOL_LENGTH + Lengths(result, order)
    requires forall d {:trigger d in seen} :: d in seen ==> !Before(c, d)
    requires here == offset - (if c.name in result then result[c.name].length else 0)
    ensures here == BASE_PROTOCOL_LENGTH + CodesBefore(result, order, c.name)
  {
    OffsetHere(protocols, seen, result, order, c);
  }

  lemma SameRunning(protocols: seq<Protocol>, result: Matched, order: seq<string>, c: Cap, proto: Protocol, here: nat,
                    r: Matched)
    requires Local(protocols, c.name, c.version) == Some(proto)
    requires r == result[c.name := Running(proto.version, proto.length, here)]
    requires here == BASE_PROTOCOL_LENGTH + CodesBefore(result, order, c.name)
    ensures r == result[c.name := Running(c.version, Local(protocols, c.name, c.version).value.length,
                                          BASE_PROTOCOL_LENGTH + CodesBefore(result, order, c.name))]
    ensures c.name in r && r == result[c.name := r[c.name]] && r[c.name].length == proto.length
  {
    LocalIs(protocols, c.name, c.version);
  }

  lemma OffsetNotBelow(protocols: seq<Protocol>, seen: set<Cap>, result: Matched, order: seq<string>, c: Cap)
    requires Layout(protocols, seen, result, order) && forall d {:trigger d in seen} :: d in seen ==> !Before(c, d)
    ensures c.name in result ==> result[c.name].length <= Lengths(result, order)
  {
    OffsetHere(protocols, seen, result, order, c);
  }

  /** The place of a capability starts where the codes of the names before it end. */
  lemma OffsetHere(protocols: seq<Protocol>, seen: set<Cap>, result: Matched, order: seq<string>, c: Cap)
    requires Layout(protocols, seen, result, order) && forall d {:trigger d in seen} :: d in seen ==> !Before(c, d)
    ensures Lengths(result, order) == CodesBefore(result, order, c.name) + LengthIn(result, c.name)
  {
    LastPlace(protocols, seen, result, order, c);
  }

  lemma OffsetNext(protocols: seq<Protocol>, seen: set<Cap>, result: Matched, order: seq<string>, c: Cap, r: Matched)
    requires Layout(protocols, seen, result, order) && forall d {:trigger d in seen} :: d in seen ==> !Before(c, d)
    requires c.name in r && r == result[c.name := r[c.name]]
    ensures Lengths(r, Placed(order, result, c.name)) == CodesBefore(result, order, c.name) + r[c.name].length
  {
    LastPlace(protocols, seen, result, order, c);
    CodesAfter(result, order, c.name, r);
  }

  lemma SetNext(cs: seq<Cap>, i: nat)
    requires i < |cs| && InOrder(cs)
    ensures Set(cs[..i + 1]) == Set(cs[..i]) + {cs[i]}
    ensures forall d {:trigger d in Set(cs[..i])} :: d in Set(cs[..i]) ==> !Before(cs[i], d)
  {
    assert cs[..i + 1] == cs[..i] + [cs[i]];
  }

  lemma LocalIs(protocols: seq<Protocol>, name: string, version: nat)
    ensures var p := Local(protocols, name, version);
            p.Some? ==> p.value in protocols && p.value.name == name && p.value.version == version
  {
  }

  lemma PassOver(protocols: seq<Protocol>, seen: set<Cap>, result: Matched, order: seq<string>, c: Cap)
    requires Layout(protocols, seen, result, order) && Local(protocols, c.name, c.version).None?
    ensures Layout(protocols, seen + {c}, result, order)
  {
    forall n ensures Best(protocols, seen + {c}, result, n) {
      assert Best(protocols, seen, result, n);
      forall v: nat | Shared(protocols, seen + {c}, n, v) ensures n in result && v <= result[n].version {
        assert Shared(protocols, seen, n, v);
      }
    }
  }

  /** The running offset after a capability was taken up. */
  lemma LengthsLast(result: Matched, order: seq<string>, name: string, r: Matched, order2: seq<string>, last: nat)
    requires order2 == Placed(order, result, name) && |order2| == last + 1 && order2[last] == name && name in r
    requires last <= |order| && Lengths(r, order[..last]) == Lengths(result, order[..last])
    ensures Lengths(r, order2) == CodesBefore(result, order, name) + r[name].length
  {
    assert order2[..last] == order[..last];
    assert name !in result ==> order[..last] == order;
  }

  lemma CodesAfter(result: Matched, order: seq<string>, name: string, r: Matched)
    requires Increasing(order) && (name in result ==> order != [] && order[|order| - 1] == name)
    requires name !in result ==> name !in order
    requires r.Keys == result.Keys + {name} && (forall n :: n in result && n != name ==> r[n] == result[n])
    ensures Lengths(r, Placed(order, result, name)) == CodesBefore(result, order, name) + r[name].length
  {
    var order2 := Placed(order, result, name);
    EarlierLengths(result, order, name, r, |order2| - 1);
    LengthsLast(result, order, name, r, order2, |order2| - 1);
  }

  // ---- both sides agree ----

  /** The capabilities that a node announces. */
  function CapsOf(protocols: seq<Protocol>): seq<Cap>
  {
    if protocols == [] then [] else [Cap(protocols[0].name, protocols[0].version)] + CapsOf(protocols[1..])
  }

  lemma {:induction false} LocalIsAnnounced(protocols: seq<Protocol>, name: string, version: nat)
    ensures Local(protocols, name, version).Some? <==> Cap(name, version) in Set(CapsOf(protocols))
  {
    if protocols != [] {
      LocalIsAnnounced(protocols[1..], name, version);
    }
  }

  /** Where both sides have a protocol version, they give it the same length. */
  ghost predicate SameLengths(a: seq<Protocol>, b: seq<Protocol>)
  {
    forall p, q {:trigger p in a, q in b} :: p in a && q in b && p.name == q.name && p.version == q.version ==>
      p.length == q.length
  }

  lemma {:induction false} SameOrder(a: seq<string>, b: seq<string>)
    requires Increasing(a) && Increasing(b) && forall n :: n in a <==> n in b
    ensures a == b
  {
    if a != [] {
      assert a[0] in a;
    }
    if b != [] {
      assert b[0] in b;
      var x, y := a[|a| - 1], b[|b| - 1];
      LastIsGreatest(a, y);
      LastIsGreatest(b, x);
      LessTotal(x, y);
      var a2, b2 := a[..|a| - 1], b[..|b| - 1];
      forall n ensures n in a2 <==> n in b2 {
        NotLast(a, n);
        NotLast(b, n);
      }
      SameOrder(a2, b2);
      assert a == a2 + [x] && b == b2 + [y];
    }
  }

  lemma LastIsGreatest(a: seq<string>, n: string)
    requires Increasing(a) && n in a
    ensures n == a[|a| - 1] || Less(n, a[|a| - 1])
  {
    var k :| 0 <= k < |a| && a[k] == n;
  }

  lemma NotLast(a: seq<string>, n: string)
    requires Increasing(a) && a != []
    ensures n in a[..|a| - 1] <==> n in a && n != a[|a| - 1]
  {
    var last := |a| - 1;
    if n in a[..last] {
      var k :| 0 <= k < last && a[k] == n;
      assert Less(a[k], a[last]);
      LessTotal(a[last], a[last]);
    }
  }

  /** Two nodes that match each other's announcements come to the same names, versions and offsets. */
  lemma PeersAgree(a: seq<Protocol>, b: seq<Protocol>, ra: Matched, rb: Matched, oa: seq<string>, ob: seq<string>)
    requires SameLengths(a, b)
    requires Layout(a, Set(CapsOf(b)), ra, oa) && Layout(b, Set(CapsOf(a)), rb, ob)
    ensures ra == rb
  {
    forall n ensures SameVersion(ra, rb, n) {
      assert Best(a, Set(CapsOf(b)), ra, n) && Best(b, Set(CapsOf(a)), rb, n);
      SameEntry(a, b, ra, rb, n);
    }
    forall n ensures n in oa <==> n in ob {
      assert SameVersion(ra, rb, n);
    }
    SameOrder(oa, ob);
    SamePlaces(ra, rb, oa);
  }

  /** The name runs on both sides or on neither, with the same version and length. */
  ghost predicate SameVersion(ra: Matched, rb: Matched, n: string)
  {
    (n in ra <==> n in rb) && (n in ra ==> ra[n].version == rb[n].version && ra[n].length == rb[n].length)
  }

  /** Then the same order gives the same offsets. */
  lemma SamePlaces(ra: Matched, rb: Matched, order: seq<string>)
    requires forall n {:trigger SameVersion(ra, rb, n)} :: SameVersion(ra, rb, n)
    requires Contiguous(ra, order) && Contiguous(rb, order) && forall n {:trigger n in ra} :: n in ra <==> n in order
    ensures ra == rb
  {
    forall n | n in ra ensures n in rb && ra[n] == rb[n] {
      assert SameVersion(ra, rb, n);
      var k :| 0 <= k < |order| && order[k] == n;
      SameOffset(ra, rb, order, k);
    }
    forall n | n in rb ensures n in ra {
      assert SameVersion(ra, rb, n);
    }
  }

  lemma SameOffset(ra: Matched, rb: Matched, order: seq<string>, k: nat)
    requires forall n {:trigger SameVersion(ra, rb, n)} :: SameVersion(ra, rb, n)
    requires Contiguous(ra, order) && Contiguous(rb, order) && k < |order|
    ensures order[k] in ra && order[k] in rb && ra[order[k]].offset == rb[order[k]].offset
  {
    forall i | 0 <= i < k ensures LengthIn(ra, order[..k][i]) == LengthIn(rb, order[..k][i]) {
      assert SameVersion(ra, rb, order[i]);
    }
    LengthsFrame(ra, rb, order[..k]);
  }

  lemma SameEntry(a: seq<Protocol>, b: seq<Protocol>, ra: Matched, rb: Matched, n: string)
    requires SameLengths(a, b)
    requires Best(a, Set(CapsOf(b)), ra, n) && Best(b, Set(CapsOf(a)), rb, n)
    ensures (n in ra <==> n in rb) && (n in ra ==> ra[n].version == rb[n].version && ra[n].length == rb[n].length)
  {
    forall v: nat ensures Shared(a, Set(CapsOf(b)), n, v) <==> Shared(b, Set(CapsOf(a)), n, v) {
      LocalIsAnnounced(a, n, v);
      LocalIsAnnounced(b, n, v);
    }
    if n in ra {
      assert Shared(b, Set(CapsOf(a)), n, ra[n].version);
    }
    if n in rb {
      assert Shared(a, Set(CapsOf(b)), n, rb[n].version);
    }
    if n in ra && n in rb {
      LocalIs(a, n, ra[n].version);
      LocalIs(b, n, rb[n].version);
    }
  }

  // ---- routing messages ----

  predicate InRange(r: Running, code: nat)
  {
    r.offset <= code < r.offset + r.length
  }

  lemma {:induction false} LengthsGrow(result: Matched, order: seq<string>, i: nat, j: nat)
    requires i < j <= |order|
    ensures Lengths(result, order[..i]) + LengthIn(result, order[i]) <= Lengths(result, order[..j])
    decreases j
  {
    assert order[..j][..j - 1] == order[..j - 1];
    if i < j - 1 {
      LengthsGrow(result, order, i, j - 1);
    }
  }

  /** The code ranges of two protocols do not meet, and none reaches into the base protocol. */
  lemma RangesApart(protocols: seq<Protocol>, caps: set<Cap>, result: Matched, order: seq<string>, m: string,
                    n: string, code: nat)
    requires Layout(protocols, caps, result, order) && m in result && n in result && InRange(result[m], code)
    requires InRange(result[n], code)
    ensures m == n && code >= BASE_PROTOCOL_LENGTH == 16
  {
    var i :| 0 <= i < |order| && order[i] == m;
    var j :| 0 <= j < |order| && order[j] == n;
    if i < j {
      LengthsGrow(result, order, i, j);
    } else if j < i {
      LengthsGrow(result, order, j, i);
    }
  }

  /** getProto: the protocol whose range a code falls into. */
  method GetProto(result: Matched, code: nat) returns (name: Option<string>)
    ensures name.Some? ==> name.value in result && InRange(result[name.value], code)
    ensures name.None? ==> forall n :: n in result ==> !InRange(result[n], code)
  {
    var rest := result.Keys;
    while rest != {}
      invariant rest <= result.Keys && forall n :: n in result && n !in rest ==> !InRange(result[n], code)
      decreases rest
    {
      var n :| n in rest;
      if InRange(result[n], code) {
        return Some(n);
      }
      rest := rest - {n};
    }
    name := None;
  }

  /** protoRW.WriteMsg: a code beyond the protocol's length is refused, any other is shifted. */
  method WriteMsg(rw: Running, code: nat) returns (wire: Option<nat>)
    ensures wire.Some? <==> code < rw.length
    ensures wire.Some? ==> wire.value == code + rw.offset && InRange(rw, wire.value)
  {
    if code >= rw.length {
      return None;
    }
    wire := Some(code + rw.offset);
  }

  /** protoRW.ReadMsg: the code is shifted back. */
  method ReadMsg(rw: Running, wire: nat) returns (code: nat)
    requires InRange(rw, wire)
    ensures code < rw.length && code + rw.offset == wire
  {
    code := wire - rw.offset;
  }

  /** What one side writes for a protocol, the other side's protocol of that name reads with the same
      code, if both have the same layout. */
  method Exchange(layout: Matched, name: string, code: nat, ghost protocols: seq<Protocol>, ghost caps: set<Cap>,
                  ghost order: seq<string>)
    returns (received: Option<(string, nat)>)
    requires Layout(protocols, caps, layout, order)
    ensures received == if name in layout && code < layout[name].length then Some((name, code)) else None
  {
    if name !in layout {
      return None;
    }
    var wire := WriteMsg(layout[name], code);
    if wire.None? {
      return None;
    }
    var n := GetProto(layout, wire.value);
    RangesApart(protocols, caps, layout, order, name, n.value, wire.value);
    var c := ReadMsg(layout[n.value], wire.value);
    received := Some((n.value, c));
  }

  /** Two nodes match each other's announcements on their own; then every message arrives. */
  method Connect(a: seq<Protocol>, b: seq<Protocol>) returns (mine: Matched, theirs: Matched, ghost order: seq<string>)
    requires SameLengths(a, b)
    ensures mine == theirs && Layout(a, Set(CapsOf(b)), mine, order)
  {
    ghost var ob;
    mine, order := MatchProtocols(a, CapsOf(b));
    theirs, ob := MatchProtocols(b, CapsOf(a));
    PeersAgree(a, b, mine, theirs, order, ob);
  }
}
