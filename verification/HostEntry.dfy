/**
 The answer to a name lookup: the proxy lays out addresses, official name and aliases in a buffer,
 the client builds its table of pointers into it.
 */
module HostEntry {
  import opened Bytes

  /** Here bytes are numbers: the counts in the header are calculated with. */
  type byte = b: nat | b < 0x100

  const AF_INET := 2
  const HOSTENT_MAX_POINTERS := 128

  /** An address the resolver returned, with its two names. */
  datatype Inet = Inet(raw: seq<byte>, canonicalName: string, hostName: string)

  /** What an answer tells. */
  datatype Entry = Entry(addresses: seq<seq<byte>>, name: seq<byte>, aliases: seq<seq<byte>>)

  // ---- the choice of what to transmit ----

  function V4Addresses(hosts: seq<Inet>): (r: seq<seq<byte>>)
    ensures forall a :: a in r ==> |a| == 4
  {
    if hosts == [] then []
    else
      var last := hosts[|hosts| - 1];
      V4Addresses(hosts[..|hosts| - 1]) + if |last.raw| == 4 then [last.raw] else []
  }

  function AddName(names: seq<string>, name: string): seq<string> {
    if name in names then names else names + [name]
  }

  /** The names of the V4 addresses, each once. */
  function Names(hosts: seq<Inet>): (r: seq<string>)
    ensures V4Addresses(hosts) != [] ==> r != []
  {
    if hosts == [] then []
    else
      var last := hosts[|hosts| - 1];
      var names := Names(hosts[..|hosts| - 1]);
      if |last.raw| == 4 then AddName(AddName(names, last.canonicalName), last.hostName) else names
  }

  function Convert(toEbcdic: string -> seq<byte>, names: seq<string>): (r: seq<seq<byte>>)
    ensures |r| == |names|
  {
    if names == [] then [] else Convert(toEbcdic, names[..|names| - 1]) + [toEbcdic(names[|names| - 1])]
  }

  /** The number of names that fit, with their null bytes, in less than the bytes remaining. */
  function AliasCount(raw: seq<seq<byte>>, remaining: int): (n: nat)
    ensures n <= |raw|
  {
    if raw == [] || |raw[0]| + 1 >= remaining then 0 else 1 + AliasCount(raw[1..], remaining - |raw[0]| - 1)
  }

  /** The bytes remaining behind the names counted. */
  function AliasLeft(raw: seq<seq<byte>>, remaining: int): int {
    if raw == [] || |raw[0]| + 1 >= remaining then remaining else AliasLeft(raw[1..], remaining - |raw[0]| - 1)
  }

  /** As many addresses and names as fit into `size` bytes, if there is room for the first name and one address. */
  function Fitting(addresses: seq<seq<byte>>, raw: seq<seq<byte>>, size: nat): Option<Entry>
    requires raw != []
  {
    var remaining := size - |raw[0]| - 1;
    if remaining <= 4 then None
    else
      var count := AddressCount(|addresses|, remaining);
      Some(Entry(addresses[..count], raw[0], raw[1..][..AliasCount(raw[1..], remaining - 4 * count)]))
  }

  function AddressCount(found: nat, remaining: nat): (n: nat)
    ensures n <= found
  {
    if found <= remaining / 4 then found else remaining / 4
  }

  /** The bytes remaining behind the name, the addresses and the aliases that are counted. */
  function RemainingAtEnd(addresses: seq<seq<byte>>, raw: seq<seq<byte>>, size: nat): int
    requires raw != [] && size - |raw[0]| - 1 > 4
  {
    var remaining := size - |raw[0]| - 1;
    AliasLeft(raw[1..], remaining - 4 * AddressCount(|addresses|, remaining))
  }

  /** What is transmitted in `size` bytes, if anything. */
  function Chosen(hosts: seq<Inet>, toEbcdic: string -> seq<byte>, size: nat): Option<Entry> {
    if V4Addresses(hosts) == [] then None else Fitting(V4Addresses(hosts), Convert(toEbcdic, Names(hosts)), size)
  }

  predicate NullFree(s: seq<byte>) {
    0 !in s
  }

  predicate AllNullFree(names: seq<seq<byte>>) {
    forall i :: 0 <= i < |names| ==> NullFree(names[i])
  }

  predicate AllFourBytes(addresses: seq<seq<byte>>) {
    forall i :: 0 <= i < |addresses| ==> |addresses[i]| == 4
  }

  // ---- the layout ----

  /** Null-terminated strings. */
  function Strings(names: seq<seq<byte>>): seq<byte> {
    if names == [] then [] else names[0] + [0] + Strings(names[1..])
  }

  function ByteOf(n: nat): byte {
    n % 0x100
  }

  function ShortBytes(n: nat): (r: seq<byte>)
    ensures |r| == 2
  {
    [ByteOf(n / 0x100), ByteOf(n)]
  }

  function CountBytes(n: nat): (r: seq<byte>)
    ensures |r| == 4
  {
    [ByteOf(n / 0x100_0000), ByteOf(n / 0x1_0000), ByteOf(n / 0x100), ByteOf(n)]
  }

  function Header(e: Entry): (r: seq<byte>)
    ensures |r| == 12
  {
    ShortBytes(AF_INET) + ShortBytes(4) + CountBytes(|e.addresses|) + CountBytes(|e.aliases|)
  }

  function Layout(e: Entry): seq<byte> {
    Header(e) + Concat(e.addresses) + (e.name + [0]) + Strings(e.aliases)
  }

  // ---- reading it ----

  function StrLen(buf: seq<byte>, from: nat): nat
    decreases |buf| - from
  {
    if from >= |buf| || buf[from] == 0 then 0 else 1 + StrLen(buf, from + 1)
  }

  function StringAt(buf: seq<byte>, from: nat): seq<byte> {
    if from + StrLen(buf, from) <= |buf| then buf[from..from + StrLen(buf, from)] else []
  }

  /** The start of the string after the one here. */
  function NextString(buf: seq<byte>, from: nat): nat {
    from + StrLen(buf, from) + 1
  }

  /** The name follows the header and the addresses. */
  function NameAt(addrCount: nat): nat {
    12 + 4 * addrCount
  }

  /** Where `k` strings in a row start. */
  function StringOffsets(buf: seq<byte>, from: nat, k: nat): (r: seq<nat>)
    ensures |r| == k
    decreases k
  {
    if k == 0 then [] else [from] + StringOffsets(buf, NextString(buf, from), k - 1)
  }

  function AddressOffsets(n: nat): (r: seq<nat>)
    ensures |r| == n
  {
    seq(n, j => 12 + 4 * j)
  }

  /** These bytes are in the buffer at this place. */
  predicate Holds(buf: seq<byte>, at: nat, bytes: seq<byte>) {
    at + |bytes| <= |buf| && buf[at..at + |bytes|] == bytes
  }

  lemma HoldsParts(buf: seq<byte>, at: nat, a: seq<byte>, b: seq<byte>)
    requires Holds(buf, at, a + b)
    ensures Holds(buf, at, a) && Holds(buf, at + |a|, b)
  {
    var whole := buf[at..at + |a + b|];
    assert buf[at..at + |a|] == whole[..|a|] == a;
    assert buf[at + |a|..at + |a| + |b|] == whole[|a|..] == b;
  }

  lemma {:induction false} StringReads(buf: seq<byte>, at: nat, s: seq<byte>)
    requires Holds(buf, at, s + [0]) && NullFree(s)
    ensures StrLen(buf, at) == |s| && StringAt(buf, at) == s && NextString(buf, at) == at + |s| + 1
    decreases |s|
  {
    HoldsParts(buf, at, s, [0]);
    if s != [] {
      assert buf[at] == s[0] && buf[at + 1..at + 1 + |s|] == buf[at..at + 1 + |s|][1..];
      assert (s + [0])[1..] == s[1..] + [0];
      StringReads(buf, at + 1, s[1..]);
    }
  }

  // ---- the client's pointer table ----

  const NULL: int := -1

  /**
   The kind and length of the addresses, the name, and the place in the table where the alias list
   starts; the address list starts at 0.
   */
  datatype HostPointers = HostPointers(addrType: nat, length: nat, name: nat, aliases: nat)

  /** The pointers from a place in the table up to the first null pointer. */
  function ListAt(table: seq<int>, i: nat): seq<int>
    decreases |table| - i
  {
    if i >= |table| || table[i] == NULL then [] else [table[i]] + ListAt(table, i + 1)
  }

  function Value(high: nat, low: nat): nat {
    high * 0x100 + low
  }

  lemma {:induction false} ListReads(table: seq<int>, i: nat, offsets: seq<nat>)
    requires i + |offsets| < |table| && table[i + |offsets|] == NULL
    requires forall k :: 0 <= k < |offsets| ==> table[i + k] == offsets[k]
    ensures ListAt(table, i) == offsets
    decreases |offsets|
  {
    if offsets != [] {
      assert table[i + 0] == offsets[0];
      ListReads(table, i + 1, offsets[1..]);
    }
  }

  function Count(buf: seq<byte>, at: nat): (n: nat)
    requires at + 4 <= |buf|
    ensures n < 0x1_0000_0000
  {
    Value(buf[at], buf[at + 1]) * 0x1_0000 + Value(buf[at + 2], buf[at + 3])
  }

  function Least(a: nat, b: nat): nat {
    if a <= b then a else b
  }

  /** The addresses listed: at least one, and no more than leave room for two null pointers. */
  function Listed(addrCount: nat): nat {
    if addrCount == 0 then 1 else Least(addrCount, HOSTENT_MAX_POINTERS - 2)
  }

  /** The room left for aliases, as an unsigned word. */
  function AliasRoom(addrCount: nat): nat
    requires addrCount < 0x1_0000_0000
  {
    var room := HOSTENT_MAX_POINTERS - addrCount - 2;
    if room < 0 then 0x1_0000_0000 + room else room
  }

  /** Both lists and their null pointers are inside the table. */
  predicate TableHolds(addrCount: nat, aliasCount: nat)
    requires addrCount < 0x1_0000_0000
  {
    Listed(addrCount) + 1 + Least(aliasCount, AliasRoom(addrCount)) < HOSTENT_MAX_POINTERS
  }

  /** With more addresses than fit, the room left wraps around and does not limit the aliases. */
  lemma TableHoldsIff(addrCount: nat, aliasCount: nat)
    requires addrCount < 0x1_0000_0000
    ensures TableHolds(addrCount, aliasCount) <==>
            if addrCount == 0 then aliasCount < HOSTENT_MAX_POINTERS - 2
            else addrCount <= HOSTENT_MAX_POINTERS - 2 || aliasCount == 0
  {
  }

  /** The name and the null-terminated lists the client builds. */
  predicate Built(buf: seq<byte>, table: seq<int>, p: HostPointers)
    requires |buf| >= 12
  {
    var addrCount, aliasCount := Count(buf, 4), Count(buf, 8);
    var name := NameAt(addrCount);
    && p == HostPointers(Value(buf[0], buf[1]), Value(buf[2], buf[3]), name, Listed(addrCount) + 1)
    && ListAt(table, 0) == AddressOffsets(Listed(addrCount))
    && ListAt(table, p.aliases) == StringOffsets(buf, NextString(buf, name), Least(aliasCount, AliasRoom(addrCount)))
  }

  /** What a program reads through the pointers. */
  function Addresses(buf: seq<byte>, offsets: seq<int>): seq<seq<byte>> {
    if offsets == [] then []
    else [if 0 <= offsets[0] <= |buf| - 4 then buf[offsets[0]..offsets[0] + 4] else []] + Addresses(buf, offsets[1..])
  }

  function StringsAt(buf: seq<byte>, offsets: seq<int>): seq<seq<byte>> {
    if offsets == [] then []
    else [if 0 <= offsets[0] then StringAt(buf, offsets[0]) else []] + StringsAt(buf, offsets[1..])
  }

  function Recovered(buf: seq<byte>, table: seq<int>, p: HostPointers): Entry {
    Entry(Addresses(buf, ListAt(table, 0)), StringAt(buf, p.name), StringsAt(buf, ListAt(table, p.aliases)))
  }

  predicate Transmittable(e: Entry) {
    && e.addresses != [] && AllFourBytes(e.addresses)
    && |e.addresses| + |e.aliases| <= HOSTENT_MAX_POINTERS - 2
    && NullFree(e.name) && AllNullFree(e.aliases)
  }

  lemma HeaderReads(e: Entry, buf: seq<byte>)
    requires Holds(buf, 0, Header(e)) && |e.addresses| < 0x1_0000_0000 && |e.aliases| < 0x1_0000_0000
    ensures Count(buf, 4) == |e.addresses| && Count(buf, 8) == |e.aliases|
  {
    assert forall i :: 0 <= i < 12 ==> buf[i] == Header(e)[i];
    CountReads(buf, 4, |e.addresses|);
    CountReads(buf, 8, |e.aliases|);
  }

  /** The addresses are of the Internet, of four bytes each. */
  lemma KindReads(e: Entry, buf: seq<byte>)
    requires Holds(buf, 0, Header(e))
    ensures Value(buf[0], buf[1]) == AF_INET && Value(buf[2], buf[3]) == 4
  {
    assert forall i :: 0 <= i < 4 ==> buf[i] == Header(e)[i];
  }

  lemma HighDigits(n: nat, high: nat, low: nat)
    requires n == high * 0x1_0000 + low && low < 0x1_0000
    ensures n / 0x1_0000 == high && n / 0x100_0000 == high / 0x100
  {
  }

  lemma LowDigits(n: nat, high: nat, low: nat)
    requires n == high * 0x1_0000 + low && low < 0x1_0000
    ensures n / 0x100 % 0x100 == low / 0x100 && n % 0x100 == low % 0x100
  {
    assert n / 0x100 == high * 0x100 + low / 0x100;
  }

  lemma CountReads(buf: seq<byte>, at: nat, n: nat)
    requires at + 4 <= |buf| && n < 0x1_0000_0000
    requires CountBytes(n) == [buf[at], buf[at + 1], buf[at + 2], buf[at + 3]]
    ensures Count(buf, at) == n
  {
    var high, low := n / 0x1_0000, n % 0x1_0000;
    HighDigits(n, high, low);
    LowDigits(n, high, low);
    assert buf[at] == high / 0x100 && buf[at + 1] == high % 0x100 && buf[at + 2] == low / 0x100 && buf[at + 3] == low % 0x100;
  }

  lemma {:induction false} AddressesRead(buf: seq<byte>, at: nat, addresses: seq<seq<byte>>, offsets: seq<int>)
    requires Holds(buf, at, Concat(addresses)) && AllFourBytes(addresses)
    requires |offsets| == |addresses| && forall j :: 0 <= j < |offsets| ==> offsets[j] == at + 4 * j
    ensures Addresses(buf, offsets) == addresses && |Concat(addresses)| == 4 * |addresses|
    decreases |addresses|
  {
    if addresses == [] {
      assert offsets == [];
    } else {
      HoldsParts(buf, at, addresses[0], Concat(addresses[1..]));
      AddressesRead(buf, at + 4, addresses[1..], offsets[1..]);
    }
  }

  lemma StringsAtCons(buf: seq<byte>, o: nat, rest: seq<int>)
    ensures StringsAt(buf, [o] + rest) == [StringAt(buf, o)] + StringsAt(buf, rest)
  {
    assert ([o] + rest)[1..] == rest;
  }

  lemma {:induction false} StringsRead(buf: seq<byte>, at: nat, names: seq<seq<byte>>)
    requires Holds(buf, at, Strings(names)) && AllNullFree(names)
    ensures StringsAt(buf, StringOffsets(buf, at, |names|)) == names
    decreases |names|
  {
    if names != [] {
      var next, others := NextString(buf, at), names[1..];
      var offsets := StringOffsets(buf, next, |others|);
      HoldsParts(buf, at, names[0] + [0], Strings(others));
      StringReads(buf, at, names[0]);
      StringsRead(buf, next, others);
      assert StringOffsets(buf, at, |names|) == [at] + offsets;
      StringsAtCons(buf, at, offsets);
      assert names == [names[0]] + others;
    }
  }

  lemma LayoutParts(e: Entry, buf: seq<byte>)
    requires Holds(buf, 0, Layout(e))
    ensures var body, name := Concat(e.addresses), e.name + [0];
            && Holds(buf, 0, Header(e)) && Holds(buf, 12, body) && Holds(buf, 12 + |body|, name)
            && Holds(buf, 12 + |body| + |name|, Strings(e.aliases))
  {
    var head, body, name := Header(e), Concat(e.addresses), e.name + [0];
    HoldsParts(buf, 0, head + body + name, Strings(e.aliases));
    HoldsParts(buf, 0, head + body, name);
    HoldsParts(buf, 0, head, body);
  }

  lemma ListsKnown(e: Entry, buf: seq<byte>, table: seq<int>, p: HostPointers)
    requires Transmittable(e) && Holds(buf, 0, Header(e)) && Built(buf, table, p)
    ensures var a, k := |e.addresses|, |e.aliases|;
            && p.name == NameAt(a) && ListAt(table, 0) == AddressOffsets(a)
            && ListAt(table, p.aliases) == StringOffsets(buf, NextString(buf, NameAt(a)), k)
  {
    HeaderReads(e, buf);
    RoomKnown(|e.addresses|);
  }

  lemma RoomKnown(a: nat)
    requires 0 < a <= HOSTENT_MAX_POINTERS - 2
    ensures Listed(a) == a && AliasRoom(a) == HOSTENT_MAX_POINTERS - 2 - a
  {
  }

  lemma NamesRead(e: Entry, buf: seq<byte>, at: nat)
    requires NullFree(e.name) && AllNullFree(e.aliases)
    requires Holds(buf, at, e.name + [0]) && Holds(buf, at + |e.name| + 1, Strings(e.aliases))
    ensures StringAt(buf, at) == e.name
    ensures StringsAt(buf, StringOffsets(buf, NextString(buf, at), |e.aliases|)) == e.aliases
  {
    StringReads(buf, at, e.name);
    StringsRead(buf, NextString(buf, at), e.aliases);
  }

  lemma BodyReads(e: Entry, buf: seq<byte>, at: nat)
    requires Transmittable(e) && Holds(buf, 0, Layout(e)) && at == NameAt(|e.addresses|)
    ensures Addresses(buf, AddressOffsets(|e.addresses|)) == e.addresses && StringAt(buf, at) == e.name
    ensures StringsAt(buf, StringOffsets(buf, NextString(buf, at), |e.aliases|)) == e.aliases
  {
    LayoutParts(e, buf);
    AddressesRead(buf, 12, e.addresses, AddressOffsets(|e.addresses|));
    NamesRead(e, buf, at);
  }

  /** The lookup reply round-trips: through its pointer table the client reads exactly what the proxy laid out. */
  lemma RoundTrip(e: Entry, buf: seq<byte>, table: seq<int>, p: HostPointers)
    requires Transmittable(e) && Holds(buf, 0, Layout(e)) && |buf| >= 12 && Built(buf, table, p)
    ensures Recovered(buf, table, p) == e && p.addrType == 2 && p.length == 4
  {
    BodyReads(e, buf, NameAt(|e.addresses|));
    LayoutParts(e, buf);
    ListsKnown(e, buf, table, p);
    KindReads(e, buf);
  }
}
