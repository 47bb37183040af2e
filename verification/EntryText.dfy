/** What the text of a filter-box entry says, character by character. The compiler's own
    readers (FilterCompiler) are proved to agree with this. */
module EntryText {
  import opened Prelude
  import opened Text
  import opened FilterCompiler

  // ---------- The pieces of a box ----------

  /** A box is cut at its commas; each piece counts without the white space around it,
      unless nothing is left. */
  lemma {:induction false} EntriesArePieces(pieces: seq<string>, e: string)
    ensures e in NonBlank(pieces) <==> e != "" && exists i :: 0 <= i < |pieces| && Strip(pieces[i]) == e
  {
    if pieces == [] {
    } else {
      EntriesArePieces(pieces[1..], e);
      assert forall i :: 1 <= i < |pieces| ==> pieces[i] == pieces[1..][i - 1];
    }
  }

  /** In particular the entries of a box are those of the pieces between its commas. */
  lemma BoxEntries(raw: string, e: string)
    ensures var pieces := SplitOn(raw, ',');
            && JoinWith(",", pieces) == raw && (forall i :: 0 <= i < |pieces| ==> ',' !in pieces[i])
            && (e in SplitEntries(raw) <==> e != "" && exists i :: 0 <= i < |pieces| && Strip(pieces[i]) == e)
  {
    SplitJoins(raw, ',');
    assert "," == [','];
    EntriesArePieces(SplitOn(raw, ','), e);
  }

  /** ANY or ALL, in any case. */
  predicate SaysAny(entry: string) {
    Lower(entry) == "any" || Lower(entry) == "all"
  }

  // ---------- Addresses ----------

  predicate SaysAddress(lib: IpLibrary, entry: string, ip: Ip) {
    '-' !in entry && '/' !in entry && lib.parse(entry) == Some(ip)
  }

  /** An address, a slash, and a prefix length or mask. */
  ghost predicate SaysBlock(lib: IpLibrary, entry: string, net: Ip, prefix: nat) {
    exists a, m :: entry == a + "/" + m && '/' !in a && '/' !in m &&
      lib.parse(a) == Some(net) && lib.prefix(net.version, m) == Some(prefix) && prefix <= Width(net.version)
  }

  /** Two addresses of one version and in order, with a hyphen between them. */
  ghost predicate SaysSpan(lib: IpLibrary, entry: string, lo: Ip, hi: Ip) {
    && '/' !in entry && lo.version == hi.version && lo.value <= hi.value
    && exists a, b :: entry == a + "-" + b && '-' !in a && lib.parse(Strip(a)) == Some(lo) && lib.parse(Strip(b)) == Some(hi)
  }

  /** The addresses that share the first `prefix` bits with `net`. */
  predicate InRangeOf(x: Ip, net: Ip, prefix: nat)
    requires prefix <= Width(net.version)
  {
    var size := BlockSize(net.version, prefix);
    var first := net.value - net.value % size;
    x.version == net.version && first <= x.value < first + size
  }

  ghost predicate AddressEntryReads(lib: IpLibrary, entry: string) {
    || SaysAny(entry)
    || (exists ip :: SaysAddress(lib, entry, ip))
    || (exists net, prefix: nat :: SaysBlock(lib, entry, net, prefix))
    || (exists lo, hi :: SaysSpan(lib, entry, lo, hi))
  }

  /** The entry names the address: as itself, in a block, or in a range. */
  ghost predicate AddressEntryCovers(lib: IpLibrary, entry: string, x: Ip) {
    && !SaysAny(entry)
    && (|| SaysAddress(lib, entry, x)
        || (exists net, prefix: nat :: SaysBlock(lib, entry, net, prefix) && prefix <= Width(net.version) && InRangeOf(x, net, prefix))
        || (exists lo, hi :: SaysSpan(lib, entry, lo, hi) && x.version == lo.version && lo.value <= x.value <= hi.value))
  }

  lemma CutAt(entry: string, a: string, c: char, b: string)
    requires entry == a + [c] + b && c !in a
    ensures IndexOf(entry, c) == |a| < |entry| && entry[..|a|] == a && entry[|a| + 1..] == b && c in entry
  {
    IndexOfHead(a, c, b);
    assert entry[|a|] == c;
  }

  lemma CutHere(entry: string, c: char)
    requires c in entry
    ensures var i := IndexOf(entry, c);
            i < |entry| && c !in entry[..i] && entry == entry[..i] + [c] + entry[i + 1..]
  {
    var k :| 0 <= k < |entry| && entry[k] == c;
  }

  lemma BlockIsRead(lib: IpLibrary, entry: string, net: Ip, prefix: nat)
    ensures ReadBlock(lib, entry) == Some((net, prefix)) <==> SaysBlock(lib, entry, net, prefix)
  {
    if ReadBlock(lib, entry) == Some((net, prefix)) {
      var i := IndexOf(entry, '/');
      assert entry[i] == '/';
      CutHere(entry, '/');
      assert entry == entry[..i] + "/" + entry[i + 1..];
    }
    if SaysBlock(lib, entry, net, prefix) {
      var a, m :| entry == a + "/" + m && '/' !in a && '/' !in m &&
        lib.parse(a) == Some(net) && lib.prefix(net.version, m) == Some(prefix) && prefix <= Width(net.version);
      CutAt(entry, a, '/', m);
    }
  }

  lemma SpanIsRead(lib: IpLibrary, entry: string, lo: Ip, hi: Ip)
    requires '-' in entry && '/' !in entry
    ensures ReadRange(lib, entry) == Some(Span(lo, hi)) <==> SaysSpan(lib, entry, lo, hi)
  {
    CutHere(entry, '-');
    var i := IndexOf(entry, '-');
    assert entry == entry[..i] + "-" + entry[i + 1..];
    if SaysSpan(lib, entry, lo, hi) {
      var a, b :| entry == a + "-" + b && '-' !in a && lib.parse(Strip(a)) == Some(lo) && lib.parse(Strip(b)) == Some(hi);
      CutAt(entry, a, '-', b);
    }
  }

  /** The reader finds in an address entry exactly what its text says. */
  lemma AddressEntryIsRead(lib: IpLibrary, entry: string)
    requires !SaysAny(entry)
    ensures forall ip :: ReadIpEntry(lib, entry) == Some(One(ip)) <==> SaysAddress(lib, entry, ip)
    ensures forall net, prefix: nat :: ReadIpEntry(lib, entry) == Some(Block(net, prefix)) <==> SaysBlock(lib, entry, net, prefix)
    ensures forall lo, hi :: ReadIpEntry(lib, entry) == Some(Span(lo, hi)) <==> SaysSpan(lib, entry, lo, hi)
  {
    forall ip ensures ReadIpEntry(lib, entry) == Some(One(ip)) <==> SaysAddress(lib, entry, ip) {
      EntryFormIsRead(lib, entry, ip, ip, 0);
    }
    forall net, prefix: nat ensures ReadIpEntry(lib, entry) == Some(Block(net, prefix)) <==> SaysBlock(lib, entry, net, prefix) {
      EntryFormIsRead(lib, entry, net, net, prefix);
    }
    forall lo, hi ensures ReadIpEntry(lib, entry) == Some(Span(lo, hi)) <==> SaysSpan(lib, entry, lo, hi) {
      EntryFormIsRead(lib, entry, lo, hi, 0);
    }
  }

  lemma EntryFormIsRead(lib: IpLibrary, entry: string, ip: Ip, hi: Ip, prefix: nat)
    requires !SaysAny(entry)
    ensures ReadIpEntry(lib, entry) == Some(One(ip)) <==> SaysAddress(lib, entry, ip)
    ensures ReadIpEntry(lib, entry) == Some(Block(ip, prefix)) <==> SaysBlock(lib, entry, ip, prefix)
    ensures ReadIpEntry(lib, entry) == Some(Span(ip, hi)) <==> SaysSpan(lib, entry, ip, hi)
  {
    if SaysBlock(lib, entry, ip, prefix) {
      var a, m :| entry == a + "/" + m && '/' !in a && '/' !in m &&
        lib.parse(a) == Some(ip) && lib.prefix(ip.version, m) == Some(prefix) && prefix <= Width(ip.version);
      CutAt(entry, a, '/', m);
    }
    if SaysSpan(lib, entry, ip, hi) {
      var a, b :| entry == a + "-" + b && '-' !in a && lib.parse(Strip(a)) == Some(ip) && lib.parse(Strip(b)) == Some(hi);
      CutAt(entry, a, '-', b);
    }
    BlockIsRead(lib, entry, ip, prefix);
    if '-' in entry && '/' !in entry {
      SpanIsRead(lib, entry, ip, hi);
    }
  }

  // ---------- Ports and services ----------

  predicate SaysProtocol(p: string) {
    Lower(p) == "tcp" || Lower(p) == "udp"
  }

  /** Digits, or a protocol, a colon and digits. */
  ghost predicate SaysPort(entry: string, n: nat) {
    || (AllDigits(entry) && ParseNat(entry) == n)
    || (exists p, a :: entry == p + ":" + a && SaysProtocol(p) && AllDigits(a) && ParseNat(a) == n)
  }

  /** A protocol, a colon, and two numbers with a hyphen between them. */
  ghost predicate SaysPorts(entry: string, lo: nat, hi: nat) {
    exists p, a, b :: entry == p + ":" + (a + "-" + b) && SaysProtocol(p) &&
      AllDigits(a) && AllDigits(b) && ParseNat(a) == lo && ParseNat(b) == hi
  }

  /** Any other text of letters, digits and `._/+-`. */
  predicate SaysService(entry: string) {
    && entry != "" && !AllDigits(entry)
    && forall c :: c in entry ==> 'a' <= c <= 'z' || 'A' <= c <= 'Z' || '0' <= c <= '9' || c in "._/+-"
  }

  ghost predicate PortEntryReads(entry: string) {
    || SaysAny(entry)
    || (exists n: nat :: SaysPort(entry, n))
    || (exists lo: nat, hi: nat :: SaysPorts(entry, lo, hi) && lo <= hi)
    || SaysService(entry)
  }

  /** The entry names the port, or the service. */
  ghost predicate PortEntrySelects(entry: string, port: Option<nat>, service: Option<string>) {
    && !SaysAny(entry)
    && (|| (port.Some? && SaysPort(entry, port.value))
        || (port.Some? && exists lo: nat, hi: nat :: SaysPorts(entry, lo, hi) && lo <= port.value <= hi)
        || (service.Some? && SaysService(entry) && Lower(service.value) == Lower(entry)))
  }

  predicate IsPortText(entry: string, n: nat) {
    || (AllDigits(entry) && ParseNat(entry) == n)
    || (HasProtocol(entry) && AllDigits(entry[4..]) && ParseNat(entry[4..]) == n)
  }

  lemma LowerOfPrefix(p: string, rest: string)
    ensures Lower((p + rest)[..|p|]) == Lower(p)
  {
    assert (p + rest)[..|p|] == p;
  }

  /** `tcp:` or `udp:`, in any case, is a protocol and a colon. */
  lemma ProtocolIsPrefix(entry: string)
    ensures HasProtocol(entry) <==> exists p, rest :: entry == p + ":" + rest && SaysProtocol(p)
    ensures forall p, rest :: entry == p + ":" + rest && SaysProtocol(p) ==> |p| == 3 && entry[4..] == rest
  {
    if HasProtocol(entry) {
      var p, rest := entry[..3], entry[4..];
      assert Lower(entry[..4])[3] == ':' && entry[3] == ':';
      assert Lower(entry[..4])[..3] == Lower(p);
      assert entry == p + ":" + rest;
    }
    forall p, rest | entry == p + ":" + rest && SaysProtocol(p)
      ensures HasProtocol(entry) && |p| == 3 && entry[4..] == rest
    {
      assert |p| == |Lower(p)| == 3;
      assert entry[..4] == p + ":";
      assert Lower(p + ":") == Lower(p) + ":";
    }
  }

  lemma PortIsRead(entry: string, n: nat)
    ensures SaysPort(entry, n) <==> IsPortText(entry, n)
  {
    ProtocolIsPrefix(entry);
    if HasProtocol(entry) {
      var p, rest :| entry == p + ":" + rest && SaysProtocol(p);
      assert entry[4..] == rest;
    }
  }

  /** Two numbers with a hyphen between them. */
  lemma NumbersAreCut(body: string, a: string, b: string)
    requires body == a + "-" + b && AllDigits(a)
    ensures IndexOf(body, '-') == |a| < |body| && body[..|a|] == a && body[|a| + 1..] == b
  {
    DigitsHaveNoHyphen(a);
    CutAt(body, a, '-', b);
  }

  lemma SaidPortsMatch(entry: string, lo: nat, hi: nat)
    requires SaysPorts(entry, lo, hi)
    ensures MatchRange(entry) == Some((lo, hi))
  {
    var p, a, b :| entry == p + ":" + (a + "-" + b) && SaysProtocol(p) &&
      AllDigits(a) && AllDigits(b) && ParseNat(a) == lo && ParseNat(b) == hi;
    ProtocolIsPrefix(entry);
    NumbersAreCut(a + "-" + b, a, b);
  }

  lemma MatchedPortsAreSaid(entry: string, lo: nat, hi: nat)
    requires MatchRange(entry) == Some((lo, hi))
    ensures SaysPorts(entry, lo, hi)
  {
    ProtocolIsPrefix(entry);
    var body := entry[4..];
    var i := IndexOf(body, '-');
    var p, rest :| entry == p + ":" + rest && SaysProtocol(p);
    assert body == body[..i] + "-" + body[i + 1..];
    assert rest == body;
  }

  lemma PortsAreRead(entry: string, lo: nat, hi: nat)
    ensures SaysPorts(entry, lo, hi) <==> MatchRange(entry) == Some((lo, hi))
  {
    if SaysPorts(entry, lo, hi) {
      SaidPortsMatch(entry, lo, hi);
    }
    if MatchRange(entry) == Some((lo, hi)) {
      MatchedPortsAreSaid(entry, lo, hi);
    }
  }

  lemma DigitsHaveNoHyphen(a: string)
    requires AllDigits(a)
    ensures '-' !in a
  {
  }

  lemma ServiceHasNoColon(entry: string)
    requires SaysService(entry)
    ensures !HasProtocol(entry)
  {
    if HasProtocol(entry) {
      ProtocolIsNoDigits(entry);
    }
  }

  /** The reader finds in a port entry exactly what its text says. */
  lemma PortEntryIsRead(entry: string)
    requires !SaysAny(entry)
    ensures var r := ReadPortEntry(entry);
            && (forall n: nat :: SaysPort(entry, n) <==> r.Some? && r.value.Number? && ParseNat(r.value.text) == n)
            && (forall lo: nat, hi: nat :: SaysPorts(entry, lo, hi) && lo <= hi <==> r == Some(Range(lo, hi)))
            && (SaysService(entry) <==> r == Some(Service(entry)))
            && (r.Some? ==> !r.value.AnyPort? && (r.value.Service? ==> r.value.name == entry))
  {
    forall n: nat ensures SaysPort(entry, n) <==> IsPortText(entry, n) { PortIsRead(entry, n); }
    forall lo: nat, hi: nat ensures SaysPorts(entry, lo, hi) <==> MatchRange(entry) == Some((lo, hi)) {
      PortsAreRead(entry, lo, hi);
    }
    if SaysService(entry) {
      ServiceHasNoColon(entry);
    }
    if HasProtocol(entry) {
      ProtocolIsNoDigits(entry);
    }
  }

  lemma ProtocolIsNoDigits(entry: string)
    requires HasProtocol(entry)
    ensures !AllDigits(entry) && ':' in entry
    ensures MatchRange(entry).Some? ==> !AllDigits(entry[4..])
  {
    assert Lower(entry[..4])[3] == ':' && entry[3] == ':' && entry[3] in entry;
    if MatchRange(entry).Some? {
      var body := entry[4..];
      assert body[IndexOf(body, '-')] == '-' && '-' in body;
    }
  }

  // ---------- The forms, one by one ----------

  lemma LongTextIsNotAny(entry: string)
    requires |entry| > 3
    ensures !SaysAny(entry)
  {
    assert |Lower(entry)| == |entry|;
  }

  /** `tcp:a-b` selects exactly the ports from a to b. */
  lemma PortRangeSelects(p: string, a: string, b: string, port: Option<nat>, service: Option<string>)
    requires SaysProtocol(p) && AllDigits(a) && AllDigits(b) && ParseNat(a) <= ParseNat(b)
    ensures PortEntrySelects(p + ":" + (a + "-" + b), port, service) <==>
              port.Some? && ParseNat(a) <= port.value <= ParseNat(b)
  {
    var entry := p + ":" + (a + "-" + b);
    assert |p| == |Lower(p)|;
    LongTextIsNotAny(entry);
    PortEntryIsRead(entry);
    assert SaysPorts(entry, ParseNat(a), ParseNat(b));
  }

  /** `tcp:a` selects exactly the port a, and so does `a`. */
  lemma ProtocolPortSelects(p: string, a: string, port: Option<nat>, service: Option<string>)
    requires SaysProtocol(p) && AllDigits(a)
    ensures PortEntrySelects(p + ":" + a, port, service) <==> port == Some(ParseNat(a))
  {
    assert |p| == |Lower(p)|;
    LongTextIsNotAny(p + ":" + a);
    PortEntryIsRead(p + ":" + a);
    assert SaysPort(p + ":" + a, ParseNat(a));
  }

  lemma PortNumberSelects(a: string, port: Option<nat>, service: Option<string>)
    requires AllDigits(a)
    ensures PortEntrySelects(a, port, service) <==> port == Some(ParseNat(a))
  {
    DigitsAreNotAny(a);
    PortEntryIsRead(a);
    assert SaysPort(a, ParseNat(a));
  }

  lemma DigitsAreNotAny(a: string)
    requires AllDigits(a)
    ensures !SaysAny(a)
  {
    assert a[0] in a && Lower(a)[0] == a[0];
  }

  /** `a-b` covers exactly the addresses from a to b, and `a/m` those that share the
      prefix. */
  lemma AddressFormsCover(lib: IpLibrary, a: string, b: string, lo: Ip, hi: Ip, prefix: nat, x: Ip)
    requires '-' !in a && '/' !in a && '/' !in b && 1 < |a| && 1 < |b|
    requires lib.parse(a) == Some(lo)
    ensures lib.parse(Strip(a)) == Some(lo) && lib.parse(Strip(b)) == Some(hi) && lo.version == hi.version && lo.value <= hi.value ==>
              (AddressEntryCovers(lib, a + "-" + b, x) <==> x.version == lo.version && lo.value <= x.value <= hi.value)
    ensures lib.prefix(lo.version, b) == Some(prefix) && prefix <= Width(lo.version) ==>
              (AddressEntryCovers(lib, a + "/" + b, x) <==> InRangeOf(x, lo, prefix))
  {
    LongTextIsNotAny(a + "-" + b);
    LongTextIsNotAny(a + "/" + b);
    AddressEntryIsRead(lib, a + "-" + b);
    AddressEntryIsRead(lib, a + "/" + b);
    if lib.parse(Strip(a)) == Some(lo) && lib.parse(Strip(b)) == Some(hi) && lo.version == hi.version && lo.value <= hi.value {
      assert SaysSpan(lib, a + "-" + b, lo, hi);
    }
    if lib.prefix(lo.version, b) == Some(prefix) && prefix <= Width(lo.version) {
      assert SaysBlock(lib, a + "/" + b, lo, prefix);
    }
  }

  /** The sizes of blocks: powers of two, up to all 32 or 128 bits. */
  lemma {:induction false} PowersOfTwo(m: nat, n: nat)
    ensures Pow2(0) == 1 && Pow2(1) == 2 && Pow2(m + n) == Pow2(m) * Pow2(n)
    ensures Width(4) == 32 && Width(6) == 128
  {
    if n == 0 {
    } else {
      PowersOfTwo(m, n - 1);
    }
  }
}
