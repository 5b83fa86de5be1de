/** The two ends of a name lookup as they fill their buffers: the proxy's byte sink and the client's pointer table. */
module HostLookup {
  import opened Bytes
  import opened HostEntry
  import opened ResolvedNames

  /** Puts bytes into a buffer; a put that runs over its end fails, as the index exception does. */
  class ByteSink {
    const sink: array<HostEntry.byte>
    var pos: nat

    ghost predicate Valid()
      reads this`pos
    {
      pos <= sink.Length
    }

    constructor (target: array<HostEntry.byte>)
      ensures Valid() && sink == target && pos == 0
    {
      sink, pos := target, 0;
    }

    method Put(b: HostEntry.byte) returns (ok: bool)
      requires Valid()
      modifies this`pos, sink
      ensures Valid() && (ok <==> old(pos) < sink.Length)
      ensures ok ==> sink[..pos] == old(sink[..pos]) + [b]
    {
      if pos >= sink.Length { return false; }
      sink[pos], pos := b, pos + 1;
      ok := true;
    }

    method PutBytes(bs: seq<HostEntry.byte>) returns (ok: bool)
      requires Valid()
      modifies this`pos, sink
      ensures Valid() && (ok <==> old(pos) + |bs| <= sink.Length)
      ensures ok ==> sink[..pos] == old(sink[..pos]) + bs
    {
      ghost var before := sink[..pos];
      for i := 0 to |bs|
        invariant Valid() && pos == old(pos) + i && sink[..pos] == before + bs[..i]
      {
        var fits := Put(bs[i]);
        if !fits { return false; }
        assert bs[..i + 1] == bs[..i] + [bs[i]];
      }
      assert bs[..|bs|] == bs;
      ok := true;
    }

    method PutShort(s: nat) returns (ok: bool)
      requires Valid()
      modifies this`pos, sink
      ensures Valid() && (ok <==> old(pos) + 2 <= sink.Length)
      ensures ok ==> sink[..pos] == old(sink[..pos]) + ShortBytes(s)
    {
      ok := PutBytes([ByteOf(s / 0x100), ByteOf(s)]);
    }

    method PutInt(n: nat) returns (ok: bool)
      requires Valid()
      modifies this`pos, sink
      ensures Valid() && (ok <==> old(pos) + 4 <= sink.Length)
      ensures ok ==> sink[..pos] == old(sink[..pos]) + CountBytes(n)
    {
      ok := PutBytes([ByteOf(n / 0x100_0000), ByteOf(n / 0x1_0000), ByteOf(n / 0x100), ByteOf(n)]);
    }

    method PutString(bs: seq<HostEntry.byte>) returns (ok: bool)
      requires Valid()
      modifies this`pos, sink
      ensures Valid() && (ok <==> old(pos) + |bs| + 1 <= sink.Length)
      ensures ok ==> sink[..pos] == old(sink[..pos]) + (bs + [0])
    {
      ok := PutBytes(bs);
      if ok {
        ok := Put(0);
      }
    }

    method PutHeader(addresses: nat, aliases: nat) returns (ok: bool)
      requires Valid() && pos == 0
      modifies this`pos, sink
      ensures Valid() && (ok <==> 12 <= sink.Length)
      ensures ok ==> sink[..pos] == ShortBytes(AF_INET) + ShortBytes(4) + CountBytes(addresses) + CountBytes(aliases)
    {
      ok := PutShort(AF_INET);
      if !ok { return; }
      ok := PutShort(4);
      if !ok { return; }
      ok := PutInt(addresses);
      if !ok { return; }
      ok := PutInt(aliases);
    }

    method PutAddresses(addresses: seq<seq<HostEntry.byte>>) returns (ok: bool)
      requires Valid()
      modifies this`pos, sink
      ensures Valid() && (ok <==> old(pos) + |Concat(addresses)| <= sink.Length)
      ensures ok ==> sink[..pos] == old(sink[..pos]) + Concat(addresses)
    {
      ghost var before := sink[..pos];
      for i := 0 to |addresses|
        invariant Valid() && sink[..pos] == before + Concat(addresses[..i])
        invariant |before| == old(pos)
      {
        ConcatSplits(addresses, i);
        var fits := PutBytes(addresses[i]);
        if !fits { return false; }
      }
      assert addresses[..|addresses|] == addresses;
      ok := true;
    }

    /** The aliases: all raw names but the first. */
    method PutStrings(names: seq<seq<HostEntry.byte>>) returns (ok: bool)
      requires Valid()
      modifies this`pos, sink
      ensures Valid() && (ok <==> old(pos) + |Strings(names)| <= sink.Length)
      ensures ok ==> sink[..pos] == old(sink[..pos]) + Strings(names)
    {
      ghost var before := sink[..pos];
      for i := 0 to |names|
        invariant Valid() && sink[..pos] == before + Strings(names[..i])
        invariant |before| == old(pos)
      {
        StringsSplit(names, i);
        var fits := PutString(names[i]);
        if !fits { return false; }
      }
      assert names[..|names|] == names;
      ok := true;
    }
  }

  lemma ConcatSplits(blocks: seq<seq<HostEntry.byte>>, i: nat)
    requires i < |blocks|
    ensures Concat(blocks[..i + 1]) == Concat(blocks[..i]) + blocks[i]
    ensures |Concat(blocks[..i + 1])| <= |Concat(blocks)|
  {
    assert blocks[..i + 1] == blocks[..i] + [blocks[i]];
    ConcatSnoc(blocks[..i], blocks[i]);
    assert blocks == blocks[..i + 1] + blocks[i + 1..];
    ConcatAppend(blocks[..i + 1], blocks[i + 1..]);
  }

  lemma {:induction false} StringsAppend(a: seq<seq<HostEntry.byte>>, b: seq<seq<HostEntry.byte>>)
    ensures Strings(a + b) == Strings(a) + Strings(b)
  {
    if a == [] {
      assert a + b == b;
    } else {
      assert (a + b)[1..] == a[1..] + b;
      StringsAppend(a[1..], b);
    }
  }

  lemma StringsSplit(names: seq<seq<HostEntry.byte>>, i: nat)
    requires i < |names|
    ensures Strings(names[..i + 1]) == Strings(names[..i]) + (names[i] + [0])
    ensures |Strings(names[..i + 1])| <= |Strings(names)|
  {
    assert names[..i + 1] == names[..i] + [names[i]];
    StringsAppend(names[..i], [names[i]]);
    assert Strings([names[i]]) == names[i] + [0] + [];
    assert names == names[..i + 1] + names[i + 1..];
    StringsAppend(names[..i + 1], names[i + 1..]);
  }

  /** The length of an answer; the header is 12 bytes more than `getHostent` reckons with. */
  lemma LayoutLength(e: Entry)
    ensures |Layout(e)| == 12 + |Concat(e.addresses)| + |e.name| + 1 + |Strings(e.aliases)|
  {
  }

  // ---- the proxy ----

  datatype Answer = Length(n: nat) | Overflow

  lemma ConvertAdds(toEbcdic: string -> seq<HostEntry.byte>, names: seq<string>, name: string)
    ensures Convert(toEbcdic, names + [name]) == Convert(toEbcdic, names) + [toEbcdic(name)]
  {
    assert (names + [name])[..|names|] == names;
  }

  method AddRaw(toEbcdic: string -> seq<HostEntry.byte>, names: seq<string>, raw: seq<seq<HostEntry.byte>>, name: string)
    returns (names': seq<string>, raw': seq<seq<HostEntry.byte>>)
    requires raw == Convert(toEbcdic, names)
    ensures names' == AddName(names, name) && raw' == Convert(toEbcdic, names')
  {
    names', raw' := names, raw;
    if name !in names {
      names', raw' := names + [name], raw + [toEbcdic(name)];
      ConvertAdds(toEbcdic, names, name);
    }
  }

  method Collect(hosts: seq<Inet>, toEbcdic: string -> seq<HostEntry.byte>)
    returns (v4Addresses: seq<seq<HostEntry.byte>>, rawNames: seq<seq<HostEntry.byte>>)
    ensures v4Addresses == V4Addresses(hosts) && rawNames == Convert(toEbcdic, Names(hosts))
  {
    v4Addresses, rawNames := [], [];
    var names: seq<string> := [];
    for i := 0 to |hosts|
      invariant v4Addresses == V4Addresses(hosts[..i]) && names == Names(hosts[..i]) && rawNames == Convert(toEbcdic, names)
    {
      assert hosts[..i + 1][..i] == hosts[..i];
      if |hosts[i].raw| != 4 { continue; }
      v4Addresses := v4Addresses + [hosts[i].raw];
      names, rawNames := AddRaw(toEbcdic, names, rawNames, hosts[i].canonicalName);
      names, rawNames := AddRaw(toEbcdic, names, rawNames, hosts[i].hostName);
    }
    assert hosts[..|hosts|] == hosts;
  }

  /** The number of names after the first that fit. */
  method CountAliases(rawNames: seq<seq<HostEntry.byte>>, room: int) returns (aliasCount: nat)
    requires rawNames != []
    ensures aliasCount == AliasCount(rawNames[1..], room)
  {
    aliasCount := 0;
    var remaining := room;
    for i := 1 to |rawNames|
      invariant aliasCount == i - 1
      invariant AliasCount(rawNames[1..], room) == aliasCount + AliasCount(rawNames[i..], remaining)
    {
      var reqBytes := |rawNames[i]| + 1;
      assert rawNames[i..][0] == rawNames[i] && rawNames[i..][1..] == rawNames[i + 1..];
      if reqBytes >= remaining { break; }
      aliasCount, remaining := aliasCount + 1, remaining - reqBytes;
    }
  }

  method WriteEntry(e: Entry, out: array<HostEntry.byte>) returns (r: Answer)
    modifies out
    ensures if |Layout(e)| <= out.Length then r == Length(|Layout(e)|) && out[..|Layout(e)|] == Layout(e) else r == Overflow
  {
    var sink := new ByteSink(out);
    var ok := sink.PutHeader(|e.addresses|, |e.aliases|);
    if !ok { return Overflow; }
    ok := sink.PutAddresses(e.addresses);
    if !ok { return Overflow; }
    ok := sink.PutString(e.name);
    if !ok { return Overflow; }
    ok := sink.PutStrings(e.aliases);
    if !ok { return Overflow; }
    r := Length(sink.pos);
  }

  method Fit(v4Addresses: seq<seq<HostEntry.byte>>, rawNames: seq<seq<HostEntry.byte>>, size: nat) returns (e: Option<Entry>)
    requires rawNames != []
    ensures e == Fitting(v4Addresses, rawNames, size)
  {
    var remaining := size - |rawNames[0]| - 1;
    if remaining <= 4 { return None; }
    var maxAddressCount := AddressCount(|v4Addresses|, remaining);
    var aliasCount := CountAliases(rawNames, remaining - 4 * maxAddressCount);
    return Some(Entry(v4Addresses[..maxAddressCount], rawNames[0], rawNames[1..][..aliasCount]));
  }

  /** Either nothing to transmit, or the chosen entry laid out, or an overrun exactly when the header has no room left. */
  method GetHostent(hosts: seq<Inet>, toEbcdic: string -> seq<HostEntry.byte>, out: array<HostEntry.byte>) returns (r: Answer)
    modifies out
    ensures match Chosen(hosts, toEbcdic, out.Length)
            case None => r == Length(0)
            case Some(e) =>
              if |Layout(e)| <= out.Length then r == Length(|Layout(e)|) && Holds(out[..], 0, Layout(e)) else r == Overflow
    ensures r == Overflow <==>
              (Chosen(hosts, toEbcdic, out.Length).Some?
               && RemainingAtEnd(V4Addresses(hosts), Convert(toEbcdic, Names(hosts)), out.Length) < 12)
  {
    var v4Addresses, rawNames := Collect(hosts, toEbcdic);
    if |v4Addresses| == 0 { return Length(0); }
    var e := Fit(v4Addresses, rawNames, out.Length);
    if e.None? { return Length(0); }
    OverrunIff(v4Addresses, rawNames, out.Length);
    r := WriteEntry(e.value, out);
  }

  lemma {:induction false} AllAliasesFit(raw: seq<seq<HostEntry.byte>>, remaining: int)
    requires |Strings(raw)| < remaining
    ensures AliasCount(raw, remaining) == |raw|
  {
    if raw != [] {
      AllAliasesFit(raw[1..], remaining - |raw[0]| - 1);
    }
  }

  lemma CountAll(found: nat, remaining: nat)
    requires 4 * found <= remaining
    ensures AddressCount(found, remaining) == found
  {
  }

  lemma WholeFits(addresses: seq<seq<HostEntry.byte>>, raw: seq<seq<HostEntry.byte>>, size: nat, remaining: nat)
    requires raw != [] && remaining == size - |raw[0]| - 1 > 4
    requires AddressCount(|addresses|, remaining) == |addresses|
    requires AliasCount(raw[1..], remaining - 4 * |addresses|) == |raw[1..]|
    ensures Fitting(addresses, raw, size) == Some(Entry(addresses, raw[0], raw[1..]))
  {
    assert addresses[..|addresses|] == addresses && raw[1..][..|raw[1..]|] == raw[1..];
  }

  lemma AllFitting(addresses: seq<seq<HostEntry.byte>>, raw: seq<seq<HostEntry.byte>>, size: nat)
    requires addresses != [] && raw != [] && 12 + 4 * |addresses| + |Strings(raw)| <= size
    ensures Fitting(addresses, raw, size) == Some(Entry(addresses, raw[0], raw[1..]))
  {
    var remaining := size - |raw[0]| - 1;
    assert |Strings(raw)| == |raw[0]| + 1 + |Strings(raw[1..])|;
    CountAll(|addresses|, remaining);
    AllAliasesFit(raw[1..], remaining - 4 * |addresses|);
    WholeFits(addresses, raw, size, remaining);
  }

  /** What the resolver found, when all of it is to be transmitted. */
  function Everything(hosts: seq<Inet>, toEbcdic: string -> seq<HostEntry.byte>): Entry
    requires V4Addresses(hosts) != []
  {
    var raw := Convert(toEbcdic, Names(hosts));
    Entry(V4Addresses(hosts), raw[0], raw[1..])
  }

  /**
   If everything found fits with the header, everything is transmitted, and through the pointer
   table the client reads exactly that, from any buffer that starts with the answer.
   */
  lemma LookupRoundTrip(hosts: seq<Inet>, toEbcdic: string -> seq<HostEntry.byte>, size: nat,
                        buf: seq<HostEntry.byte>, table: seq<int>, p: HostPointers)
    requires V4Addresses(hosts) != []
    requires 12 + 4 * |V4Addresses(hosts)| + |Strings(Convert(toEbcdic, Names(hosts)))| <= size
    requires |V4Addresses(hosts)| + |Names(hosts)| <= HOSTENT_MAX_POINTERS - 1 && AllNullFree(Convert(toEbcdic, Names(hosts)))
    requires Chosen(hosts, toEbcdic, size).Some? && Holds(buf, 0, Layout(Chosen(hosts, toEbcdic, size).value))
    requires |buf| >= 12 && Built(buf, table, p)
    ensures Chosen(hosts, toEbcdic, size) == Some(Everything(hosts, toEbcdic))
    ensures Recovered(buf, table, p) == Everything(hosts, toEbcdic)
    ensures var e := Recovered(buf, table, p);
            && e.addresses == V4Addresses(hosts) && |e.aliases| == |Names(hosts)| - 1
            && (forall i: nat :: FirstV4(hosts, i) ==> e.name == toEbcdic(hosts[i].canonicalName))
            && (forall k :: 0 <= k < |e.aliases| ==> e.aliases[k] == toEbcdic(Names(hosts)[k + 1]))
  {
    hide Fitting, Names, Convert, V4Addresses, Strings, Layout, Built, FirstV4;
    AllFitting(V4Addresses(hosts), Convert(toEbcdic, Names(hosts)), size);
    var e := Everything(hosts, toEbcdic);
    assert AllFourBytes(e.addresses);
    assert Transmittable(e);
    RoundTrip(e, buf, table, p);
    EverythingTells(hosts, toEbcdic);
  }

  /** The name is the canonical one of the first V4 host, and the aliases are the other names. */
  lemma EverythingTells(hosts: seq<Inet>, toEbcdic: string -> seq<HostEntry.byte>)
    requires V4Addresses(hosts) != []
    ensures var e := Everything(hosts, toEbcdic);
            && e.addresses == V4Addresses(hosts) && |e.aliases| == |Names(hosts)| - 1
            && (forall i: nat :: FirstV4(hosts, i) ==> e.name == toEbcdic(hosts[i].canonicalName))
            && (forall k :: 0 <= k < |e.aliases| ==> e.aliases[k] == toEbcdic(Names(hosts)[k + 1]))
  {
    hide Names, Convert, V4Addresses;
    ConvertedAt(toEbcdic, Names(hosts));
    forall i: nat | FirstV4(hosts, i)
      ensures i < |hosts| && Names(hosts)[0] == hosts[i].canonicalName
    {
      OfficialName(hosts, i);
    }
  }

  lemma {:induction false} ConvertedAt(toEbcdic: string -> seq<HostEntry.byte>, names: seq<string>)
    ensures forall k :: 0 <= k < |names| ==> Convert(toEbcdic, names)[k] == toEbcdic(names[k])
  {
    if names != [] {
      ConvertedAt(toEbcdic, names[..|names| - 1]);
    }
  }

  lemma {:induction false} AliasesLeave(raw: seq<seq<HostEntry.byte>>, remaining: int)
    requires remaining >= 0
    ensures |Strings(raw[..AliasCount(raw, remaining)])| == remaining - AliasLeft(raw, remaining) && AliasLeft(raw, remaining) >= 0
  {
    var n := AliasCount(raw, remaining);
    if n > 0 {
      AliasesLeave(raw[1..], remaining - |raw[0]| - 1);
      assert raw[..n] == [raw[0]] + raw[1..][..n - 1];
      assert raw[..n][1..] == raw[1..][..n - 1];
    }
  }

  lemma {:induction false} ConcatFours(addresses: seq<seq<HostEntry.byte>>)
    requires AllFourBytes(addresses)
    ensures |Concat(addresses)| == 4 * |addresses|
  {
    if addresses != [] {
      ConcatFours(addresses[1..]);
    }
  }

  lemma RoomForAddresses(found: nat, remaining: nat)
    ensures 4 * AddressCount(found, remaining) <= remaining
  {
  }

  /**
   What is chosen runs over the buffer if and only if fewer bytes than the header takes remain
   behind the name, the addresses and the counted aliases; so by 12 bytes at most.
   */
  lemma OverrunIff(addresses: seq<seq<HostEntry.byte>>, raw: seq<seq<HostEntry.byte>>, size: nat)
    requires raw != [] && AllFourBytes(addresses) && Fitting(addresses, raw, size).Some?
    ensures |Layout(Fitting(addresses, raw, size).value)| > size <==> RemainingAtEnd(addresses, raw, size) < 12
    ensures |Layout(Fitting(addresses, raw, size).value)| <= size + 12
  {
    var e := Fitting(addresses, raw, size).value;
    var remaining := size - |raw[0]| - 1;
    var count := AddressCount(|addresses|, remaining);
    RoomForAddresses(|addresses|, remaining);
    ConcatFours(e.addresses);
    AliasesLeave(raw[1..], remaining - 4 * count);
    LayoutLength(e);
  }

  lemma {:induction false} AliasesAreMost(raw: seq<seq<HostEntry.byte>>, remaining: int)
    requires remaining > 0
    ensures var k := AliasCount(raw, remaining);
            && |Strings(raw[..k])| < remaining && (k < |raw| ==> |Strings(raw[..k + 1])| >= remaining)
  {
    var k := AliasCount(raw, remaining);
    if raw != [] && |raw[0]| + 1 < remaining {
      AliasesAreMost(raw[1..], remaining - |raw[0]| - 1);
      StringsOfFirst(raw, k);
      if k < |raw| { StringsOfFirst(raw, k + 1); }
    } else if raw != [] {
      StringsOfFirst(raw, 1);
    }
  }

  lemma StringsOfFirst(raw: seq<seq<HostEntry.byte>>, k: nat)
    requires 1 <= k <= |raw|
    ensures Strings(raw[..k]) == raw[0] + [0] + Strings(raw[1..][..k - 1]) && raw[..1] == [raw[0]] && Strings(raw[1..][..0]) == []
  {
    assert raw[..k][0] == raw[0] && raw[..k][1..] == raw[1..][..k - 1];
  }

  /**
   An answer has the first name, the first addresses, and the first of the other names. There is one
   if more than the four bytes of an address are left behind the first name; then as many addresses
   are taken as fit into what is left, and after them names until one does not leave a byte over.
   */
  lemma FittingIsMost(addresses: seq<seq<HostEntry.byte>>, raw: seq<seq<HostEntry.byte>>, size: nat)
    requires raw != []
    ensures var behindName, fit := size - (|raw[0]| + 1), Fitting(addresses, raw, size);
            && (fit.Some? <==> behindName > 4)
            && (fit.Some? ==>
                  var e := fit.value; var left := behindName - 4 * |e.addresses|;
                  && e.name == raw[0] && e.addresses <= addresses && e.aliases <= raw[1..]
                  && left >= 0 && (e.addresses != addresses ==> left < 4)
                  && (if left == 0 then e.aliases == [] else |Strings(e.aliases)| < left)
                  && (e.aliases != raw[1..] ==> |Strings(raw[1..][..|e.aliases| + 1])| >= left))
  {
    var behindName := size - (|raw[0]| + 1);
    if behindName > 4 {
      var count := AddressCount(|addresses|, behindName);
      var left := behindName - 4 * count;
      MostAddresses(|addresses|, behindName);
      if left > 0 { AliasesAreMost(raw[1..], left); }
      AllOfThem(addresses, count);
      AllOfThem(raw[1..], AliasCount(raw[1..], left));
    }
  }

  lemma MostAddresses(found: nat, remaining: nat)
    ensures var n := AddressCount(found, remaining);
            n <= found && 4 * n <= remaining && (n < found ==> remaining - 4 * n < 4)
  {
  }

  lemma AllOfThem<T>(s: seq<T>, n: nat)
    requires n <= |s|
    ensures s[..n] <= s && (n == |s| ==> s[..n] == s)
  {
  }

  /** V4 addresses of one host: the names are the same for all. */
  predicate OneHost(hosts: seq<Inet>, name: string) {
    forall i :: 0 <= i < |hosts| ==> |hosts[i].raw| == 4 && hosts[i].canonicalName == hosts[i].hostName == name
  }

  lemma {:induction false} OneHostFound(hosts: seq<Inet>, name: string)
    requires OneHost(hosts, name)
    ensures |V4Addresses(hosts)| == |hosts| && Names(hosts) == if hosts == [] then [] else [name]
  {
    if hosts != [] {
      OneHostFound(hosts[..|hosts| - 1], name);
    }
  }

  /** It does run over: 508 addresses of a host with a name of four characters leave room for themselves but not for the header. */
  lemma HeaderForgotten(hosts: seq<Inet>, name: string, toEbcdic: string -> seq<HostEntry.byte>)
    requires |hosts| == 508 && OneHost(hosts, name) && |toEbcdic(name)| == 4
    ensures Chosen(hosts, toEbcdic, 2048).Some? && |Layout(Chosen(hosts, toEbcdic, 2048).value)| == 2049
  {
    hide V4Addresses, Names, Layout;
    OneHostFound(hosts, name);
    var addresses, raw := V4Addresses(hosts), Convert(toEbcdic, Names(hosts));
    assert Names(hosts)[..0] == [] && raw == [toEbcdic(name)] && raw[1..] == [];
    CountAll(508, 2043);
    WholeFits(addresses, raw, 2048, 2043);
    var e := Entry(addresses, raw[0], []);
    assert Chosen(hosts, toEbcdic, 2048) == Some(e);
    ConcatFours(addresses);
    LayoutLength(e);
  }

  // ---- the client ----

  method ZeroFill(data: array<HostEntry.byte>, from: nat)
    requires from <= data.Length
    modifies data
    ensures data[..from] == old(data[..from])
    ensures forall k :: from <= k < data.Length ==> data[k] == 0
  {
    for i := from to data.Length
      invariant data[..from] == old(data[..from])
      invariant forall k :: from <= k < i ==> data[k] == 0
    {
      data[i] := 0;
    }
  }

  method ReadCount(data: array<HostEntry.byte>, at: nat) returns (n: nat)
    requires at + 4 <= data.Length
    ensures n == Count(data[..], at)
  {
    n := Value(data[at], data[at + 1]) * 0x1_0000 + Value(data[at + 2], data[at + 3]);
  }

  method FindNull(data: array<HostEntry.byte>, from: nat) returns (n: nat)
    ensures n == StrLen(data[..], from)
  {
    n := 0;
    while from + n < data.Length && data[from + n] != 0
      invariant StrLen(data[..], from) == n + StrLen(data[..], from + n)
      decreases data.Length - from - n
    {
      n := n + 1;
    }
  }

  /** The pointers to the addresses and their null pointer, at the start of the table. */
  method PointToAddresses(pointers: array<int>, addrCount: nat) returns (i: nat)
    requires pointers.Length == HOSTENT_MAX_POINTERS && addrCount <= HOSTENT_MAX_POINTERS - 2
    modifies pointers
    ensures i == Listed(addrCount) + 1 && ListAt(pointers[..i], 0) == AddressOffsets(i - 1)
  {
    pointers[0] := 12;
    i := 1;
    while i < addrCount
      invariant 1 <= i <= Listed(addrCount)
      invariant forall k :: 0 <= k < i ==> pointers[k] == 12 + 4 * k
    {
      pointers[i] := pointers[i - 1] + 4;
      i := i + 1;
    }
    pointers[i] := NULL;
    i := i + 1;
    ListReads(pointers[..i], 0, AddressOffsets(i - 1));
  }

  lemma OneMoreString(buf: seq<HostEntry.byte>, done: seq<nat>, alias: nat, left: nat)
    requires left > 0
    ensures done + StringOffsets(buf, alias, left) == done + [alias] + StringOffsets(buf, NextString(buf, alias), left - 1)
  {
  }

  /** The pointers to the aliases and their null pointer, from place `start` on. */
  method PointToAliases(data: array<HostEntry.byte>, pointers: array<int>, start: nat, first: nat, aliasCount: nat)
    requires pointers.Length == HOSTENT_MAX_POINTERS && start + aliasCount < HOSTENT_MAX_POINTERS
    modifies pointers
    ensures pointers[..start] == old(pointers[..start])
    ensures ListAt(pointers[..], start) == StringOffsets(data[..], first, aliasCount)
  {
    hide StringOffsets, ListAt;
    var i, alias := start, first;
    ghost var done, buf: seq<HostEntry.byte>, left := [], data[..], aliasCount;
    while i < start + aliasCount
      invariant start <= i <= start + aliasCount && |done| == i - start && left == start + aliasCount - i
      invariant pointers[..start] == old(pointers[..start])
      invariant forall k :: 0 <= k < |done| ==> pointers[start + k] == done[k]
      invariant StringOffsets(buf, first, aliasCount) == done + StringOffsets(buf, alias, left)
    {
      pointers[i] := alias;
      OneMoreString(buf, done, alias, left);
      var length := FindNull(data, alias);
      assert NextString(buf, alias) == alias + length + 1;
      done, left := done + [alias], left - 1;
      i, alias := i + 1, alias + length + 1;
    }
    pointers[i] := NULL;
    assert done == StringOffsets(buf, first, aliasCount);
    ListReads(pointers[..], start, done);
  }

  lemma ListKept(table: seq<int>, table': seq<int>, n: nat, offsets: seq<nat>)
    requires n == |offsets| + 1 <= |table| == |table'| && table'[..n] == table[..n]
    requires ListAt(table[..n], 0) == offsets
    ensures ListAt(table', 0) == offsets
  {
    ListBefore(table[..n], 0);
    assert forall k :: 0 <= k < n ==> table'[k] == table'[..n][k];
    ListReads(table', 0, offsets);
  }

  /** A list that leaves a place in the table has a null pointer behind it. */
  lemma {:induction false} ListBefore(table: seq<int>, i: nat)
    requires i <= |table|
    ensures i + |ListAt(table, i)| <= |table|
    ensures forall k :: 0 <= k < |ListAt(table, i)| ==> table[i + k] == ListAt(table, i)[k]
    ensures i + |ListAt(table, i)| < |table| ==> table[i + |ListAt(table, i)|] == NULL
    decreases |table| - i
  {
    if i < |table| && table[i] != NULL {
      ListBefore(table, i + 1);
      forall k | 0 <= k < |ListAt(table, i)|
        ensures table[i + k] == ListAt(table, i)[k]
      {
        if k > 0 {
          assert table[i + 1 + (k - 1)] == ListAt(table, i + 1)[k - 1];
        }
      }
    }
  }

  /** The whole table, from the counts in the header. */
  method BuildTable(data: array<HostEntry.byte>, addrCount: nat, aliases: nat, pointers: array<int>) returns (p: HostPointers)
    requires data.Length >= 12 && addrCount == Count(data[..], 4) && aliases == Count(data[..], 8)
    requires pointers.Length == HOSTENT_MAX_POINTERS && TableHolds(addrCount, aliases)
    modifies pointers
    ensures data[..] == old(data[..]) && Built(data[..], pointers[..], p)
  {
    ghost var buf := data[..];
    var name, room, aliasCount := NameAt(addrCount), AliasRoom(addrCount), aliases;
    var nameLength := FindNull(data, name);
    var i := PointToAddresses(pointers, if addrCount > HOSTENT_MAX_POINTERS - 2 then HOSTENT_MAX_POINTERS - 2 else addrCount);
    ghost var table := pointers[..];
    if aliasCount > room { aliasCount := room; }
    assert i == Listed(addrCount) + 1 && aliasCount == Least(aliases, room);
    PointToAliases(data, pointers, i, name + nameLength + 1, aliasCount);
    ListKept(table, pointers[..], i, AddressOffsets(i - 1));
    p := HostPointers(Value(data[0], data[1]), Value(data[2], data[3]), name, i);
    assert data[..] == buf && NextString(buf, name) == name + nameLength + 1;
  }

  /** An answer too short for an address and a name, lists that run over the table, or the table. */
  datatype Table = TooShort | Overrun | Made(p: HostPointers)

  /** Builds the name and the two null-terminated lists. */
  method DoGetHost(data: array<HostEntry.byte>, received: nat, pointers: array<int>) returns (t: Table)
    requires data.Length == 2048 && pointers.Length == HOSTENT_MAX_POINTERS
    modifies data, pointers
    ensures received < 16 <==> t == TooShort
    ensures var n := Least(received, 2048); data[..n] == old(data[..n]) && (t != TooShort ==> forall k :: n <= k < 2048 ==> data[k] == 0)
    ensures t == Overrun <==> received >= 16 && !TableHolds(Count(data[..], 4), Count(data[..], 8))
    ensures t.Made? ==> Built(data[..], pointers[..], t.p)
  {
    if received < 16 { return TooShort; }
    var dataLen := if received > 2048 then 2048 else received;
    ZeroFill(data, dataLen);
    var addrCount := ReadCount(data, 4);
    var aliasCount := ReadCount(data, 8);
    if !TableHolds(addrCount, aliasCount) { return Overrun; }
    ghost var buf := data[..];
    var table := BuildTable(data, addrCount, aliasCount, pointers);
    assert data[..dataLen] == buf[..dataLen] && forall k :: dataLen <= k < 2048 ==> data[k] == buf[k];
    t := Made(table);
  }
}
