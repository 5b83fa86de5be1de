/** Which addresses and names of the resolver's answer go into the reply, and in which order. */
module ResolvedNames {
  import opened Bytes
  import opened HostEntry

  predicate V4(hosts: seq<Inet>, i: nat) {
    i < |hosts| && |hosts[i].raw| == 4
  }

  /** Host `i` is known by this name: its canonical one, or `second` its host name. */
  predicate Named(hosts: seq<Inet>, i: nat, second: bool, name: string) {
    V4(hosts, i) && name == if second then hosts[i].hostName else hosts[i].canonicalName
  }

  /** An earlier place: a host further to the front, or the canonical name of the same host. */
  predicate Earlier(i: nat, second: bool, i': nat, second': bool) {
    i < i' || (i == i' && !second && second')
  }

  ghost predicate NamedEarlier(hosts: seq<Inet>, name: string, i': nat, second': bool) {
    exists i: nat, second: bool :: Earlier(i, second, i', second') && Named(hosts, i, second, name)
  }

  ghost predicate NamedSomewhere(hosts: seq<Inet>, name: string) {
    exists i: nat, second: bool :: Named(hosts, i, second, name)
  }

  lemma AddedName(names: seq<string>, name: string)
    requires Distinct(names)
    ensures var names' := AddName(names, name);
            && Distinct(names') && names <= names' && |names'| <= |names| + 1
            && forall n :: n in names' <==> n in names || n == name
  {
  }

  /** All hosts but the last. */
  lemma NamedInFront(hosts: seq<Inet>, name: string)
    requires hosts != []
    ensures var last, front := |hosts| - 1, hosts[..|hosts| - 1];
            NamedSomewhere(hosts, name) <==> NamedSomewhere(front, name) || Named(hosts, last, false, name) || Named(hosts, last, true, name)
  {
    var front := hosts[..|hosts| - 1];
    if i: nat, second: bool :| Named(hosts, i, second, name) && i < |front| {
      assert Named(front, i, second, name);
    }
    if NamedSomewhere(front, name) {
      var i: nat, second: bool :| Named(front, i, second, name);
      assert Named(hosts, i, second, name);
    }
  }

  /** The names are those of the V4 hosts, each once. */
  lemma {:induction false} NamesAre(hosts: seq<Inet>, name: string)
    ensures Distinct(Names(hosts))
    ensures name in Names(hosts) <==> NamedSomewhere(hosts, name)
  {
    hide NamedSomewhere;
    if hosts == [] {
      NobodyNamed(name);
    } else {
      var last, front := hosts[|hosts| - 1], hosts[..|hosts| - 1];
      NamesAre(front, name);
      NamedInFront(hosts, name);
      AddedName(Names(front), last.canonicalName);
      AddedName(AddName(Names(front), last.canonicalName), last.hostName);
    }
  }

  lemma NobodyNamed(name: string)
    ensures !NamedSomewhere([], name)
  {
  }

  /** The names of the hosts in front come first, and at most the two of the last host behind them. */
  lemma NamesExtend(hosts: seq<Inet>)
    requires hosts != []
    ensures var n, names, longer := |hosts| - 1, Names(hosts[..|hosts| - 1]), Names(hosts);
            && names <= longer && |longer| <= |names| + 2 && (|longer| > |names| ==> V4(hosts, n))
            && (|longer| == |names| + 2 ==> longer[|names|] == hosts[n].canonicalName && longer[|names| + 1] == hosts[n].hostName)
  {
  }

  /** A name of the hosts in front occurs earlier than anything that is named later. */
  lemma FrontIsEarlier(hosts: seq<Inet>, name: string, i: nat, second: bool)
    requires hosts != [] && name in Names(hosts[..|hosts| - 1]) && i == |hosts| - 1
    ensures NamedEarlier(hosts, name, i, second)
  {
    hide Names;
    var front := hosts[..|hosts| - 1];
    NamesAre(front, name);
    var i': nat, second': bool :| Named(front, i', second', name);
    assert Earlier(i', second', i, second) && Named(hosts, i', second', name);
  }

  lemma EarlierInFront(hosts: seq<Inet>, name: string, i: nat, second: bool)
    requires hosts != [] && NamedEarlier(hosts[..|hosts| - 1], name, i, second)
    ensures NamedEarlier(hosts, name, i, second)
  {
    var i': nat, second': bool :| Earlier(i', second', i, second) && Named(hosts[..|hosts| - 1], i', second', name);
    assert Named(hosts, i', second', name);
  }

  /** They stand in the order in which they occur first: wherever a name occurs, each name before it in the list occurs earlier. */
  lemma {:induction false} NamesInOrder(hosts: seq<Inet>, j: nat, k: nat, i: nat, second: bool)
    requires j < k < |Names(hosts)| && Named(hosts, i, second, Names(hosts)[k])
    ensures NamedEarlier(hosts, Names(hosts)[j], i, second)
  {
    hide Names, NamedEarlier;
    var n, front, names := |hosts| - 1, hosts[..|hosts| - 1], Names(hosts[..|hosts| - 1]);
    NamesExtend(hosts);
    NamesAre(hosts, Names(hosts)[k]);
    if i < n {
      InFront(hosts, i, second, Names(hosts)[k]);
      NoneBehind(hosts, k);
      NamesInOrder(front, j, k, i, second);
      EarlierInFront(hosts, names[j], i, second);
    } else if j < |names| {
      FrontIsEarlier(hosts, names[j], i, second);
    } else {
      LastInOrder(hosts, i, second);
    }
  }

  /** A name of the hosts in front is in the list in front. */
  lemma NoneBehind(hosts: seq<Inet>, k: nat)
    requires hosts != [] && k < |Names(hosts)| && Names(hosts)[k] in Names(hosts[..|hosts| - 1])
    ensures k < |Names(hosts[..|hosts| - 1])|
  {
    hide Names;
    var names := Names(hosts[..|hosts| - 1]);
    NamesExtend(hosts);
    NamesAre(hosts, Names(hosts)[k]);
    var m :| 0 <= m < |names| && names[m] == Names(hosts)[k];
    assert Names(hosts)[m] == names[m];
  }

  lemma LastInOrder(hosts: seq<Inet>, i: nat, second: bool)
    requires hosts != [] && i == |hosts| - 1
    requires var names := Names(hosts[..i]); |Names(hosts)| == |names| + 2 && Named(hosts, i, second, Names(hosts)[|names| + 1])
    ensures NamedEarlier(hosts, Names(hosts)[|Names(hosts[..i])|], i, second)
  {
    hide Names;
    NamesExtend(hosts);
    NamesAre(hosts, hosts[i].canonicalName);
    assert Earlier(i, false, i, second) && Named(hosts, i, false, hosts[i].canonicalName);
  }

  /** A name of a host in front is among the names in front. */
  lemma InFront(hosts: seq<Inet>, i: nat, second: bool, name: string)
    requires i < |hosts| - 1 && Named(hosts, i, second, name)
    ensures Named(hosts[..|hosts| - 1], i, second, name) && name in Names(hosts[..|hosts| - 1])
  {
    NamesAre(hosts[..|hosts| - 1], name);
    assert Named(hosts[..|hosts| - 1], i, second, name);
  }

  predicate FirstV4(hosts: seq<Inet>, i: nat) {
    V4(hosts, i) && forall k: nat :: k < i ==> !V4(hosts, k)
  }

  /** The official name is the canonical name of the first V4 host. */
  lemma OfficialName(hosts: seq<Inet>, i: nat)
    requires FirstV4(hosts, i)
    ensures Names(hosts) != [] && Names(hosts)[0] == hosts[i].canonicalName
  {
    var names := Names(hosts);
    assert Named(hosts, i, false, hosts[i].canonicalName);
    NamesAre(hosts, hosts[i].canonicalName);
    var k :| 0 <= k < |names| && names[k] == hosts[i].canonicalName;
    if k > 0 {
      NamesInOrder(hosts, 0, k, i, false);
      assert false;
    }
  }

  /** The addresses are those of the V4 hosts, in their order: taken of two lists as of each, and of one host if it is one. */
  lemma {:induction false} AddressesOfBoth(a: seq<Inet>, b: seq<Inet>)
    ensures V4Addresses(a + b) == V4Addresses(a) + V4Addresses(b)
    decreases |b|
  {
    if b == [] {
      assert a + b == a;
    } else {
      assert (a + b)[..|a + b| - 1] == a + b[..|b| - 1] && (a + b)[|a + b| - 1] == b[|b| - 1];
      AddressesOfBoth(a, b[..|b| - 1]);
      Assoc(V4Addresses(a), V4Addresses(b[..|b| - 1]), V4Addresses([b[|b| - 1]]));
      AddressesOfOne(b[|b| - 1]);
    }
  }

  lemma AddressesOfOne(host: Inet)
    ensures V4Addresses([host]) == if |host.raw| == 4 then [host.raw] else []
  {
    assert [host][..0] == [];
  }
}
