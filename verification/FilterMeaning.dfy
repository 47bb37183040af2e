/** What a compiled filter selects: reading its text back and evaluating it on a log
    row agrees with what the user's entries mean. */
module FilterMeaning {
  import opened Prelude
  import opened Text
  import opened FilterGrammar
  import opened FilterCompiler
  import opened EntryText

  // ---------- Rows and evaluation ----------

  /** A log row: the two addresses and the port are typed, other fields are text. */
  datatype Row = Row(srcip: Option<Ip>, dstip: Option<Ip>, dstport: Option<nat>, texts: map<string, string>)

  datatype Content = Address(ip: Ip) | Numeral(n: nat) | Words(s: string) | Missing

  function ContentOf(row: Row, field: string): Content {
    if field == "srcip" then (if row.srcip.Some? then Address(row.srcip.value) else Missing)
    else if field == "dstip" then (if row.dstip.Some? then Address(row.dstip.value) else Missing)
    else if field == "dstport" then (if row.dstport.Some? then Numeral(row.dstport.value) else Missing)
    else if field in row.texts then Words(row.texts[field]) else Missing
  }

  predicate InBlock(x: Ip, net: Ip, prefix: nat)
    requires prefix <= Width(net.version)
  {
    x.version == net.version && x.value / BlockSize(net.version, prefix) == net.value / BlockSize(net.version, prefix)
  }

  /** An address literal covers itself, a block literal every address in the block. */
  predicate Covers(lib: IpLibrary, lit: string, x: Ip) {
    if '/' in lit then
      var b := ReadBlock(lib, lit);
      b.Some? && InBlock(x, b.value.0, b.value.1)
    else lib.parse(lit) == Some(x)
  }

  /** Equality of a field with a literal; text compares without case, as the search
      requests it. */
  predicate Agrees(lib: IpLibrary, c: Content, lit: string) {
    match c
    case Address(x) => Covers(lib, lit, x)
    case Numeral(n) => AllDigits(lit) && ParseNat(lit) == n
    case Words(s) => Lower(s) == Lower(lit)
    case Missing => false
  }

  predicate Reaches(lib: IpLibrary, c: Content, op: Op, lit: string)
    requires op == Ge || op == Le
  {
    match c
    case Address(x) =>
      var bound := lib.parse(lit);
      && bound.Some? && bound.value.version == x.version
      && (if op == Ge then bound.value.value <= x.value else x.value <= bound.value.value)
    case Numeral(n) => AllDigits(lit) && (if op == Ge then ParseNat(lit) <= n else n <= ParseNat(lit))
    case Words(_) => false
    case Missing => false
  }

  predicate Holds(lib: IpLibrary, row: Row, field: string, op: Op, lit: string) {
    match op
    case Eq => Agrees(lib, ContentOf(row, field), lit)
    case Ne => !Agrees(lib, ContentOf(row, field), lit)
    case _ => Reaches(lib, ContentOf(row, field), op, lit)
  }

  predicate Eval(lib: IpLibrary, row: Row, e: Expr) {
    match e
    case Cmp(field, op, lit, _) => Holds(lib, row, field, op, lit)
    case Join(And, parts) => forall i :: 0 <= i < |parts| ==> Eval(lib, row, parts[i])
    case Join(Or, parts) => exists i :: 0 <= i < |parts| && Eval(lib, row, parts[i])
  }

  // ---------- What the entries mean ----------

  predicate EntryCovers(e: IpEntry, x: Ip)
    requires e.Block? ==> e.prefix <= Width(e.net.version)
  {
    match e
    case AnyIp => true
    case One(a) => x == a
    case Block(net, p) => InBlock(x, net, p)
    case Span(lo, hi) => x.version == lo.version && lo.value <= x.value <= hi.value
  }

  /** Some entry of the box, other than ANY/ALL, covers the address. */
  ghost predicate SomeIpEntryCovers(lib: IpLibrary, entries: seq<string>, c: Content) {
    c.Address? && exists i :: 0 <= i < |entries| && AddressEntryCovers(lib, entries[i], c.ip)
  }

  predicate PortEntryMatches(e: PortEntry, row: Row)
    requires e.Number? ==> AllDigits(e.text)
  {
    match e
    case AnyPort => true
    case Number(text) => row.dstport == Some(ParseNat(text))
    case Range(lo, hi) => row.dstport.Some? && lo <= row.dstport.value <= hi
    case Service(name) => "service" in row.texts && Lower(row.texts["service"]) == Lower(name)
  }

  function ServiceOf(row: Row): Option<string> {
    if "service" in row.texts then Some(row.texts["service"]) else None
  }

  /** Some entry of the box, other than ANY/ALL, names the row's port or service. */
  ghost predicate SomePortEntryMatches(entries: seq<string>, row: Row) {
    exists i :: 0 <= i < |entries| && PortEntrySelects(entries[i], row.dstport, ServiceOf(row))
  }

  /** The box names something besides ANY/ALL. */
  predicate Constrains(entries: seq<string>) {
    exists i :: 0 <= i < |entries| && !SaysAny(entries[i])
  }

  predicate ExtraHolds(lib: IpLibrary, f: Extra, row: Row) {
    var agrees := Agrees(lib, ContentOf(row, FieldCore(f.field)), f.value);
    if f.op == "==" then agrees else !agrees
  }

  predicate AllExtrasHold(lib: IpLibrary, extras: seq<Extra>, row: Row) {
    forall i :: 0 <= i < |extras| ==> ExtraHolds(lib, extras[i], row)
  }

  /** Letters, digits, `_` and `-`, possibly followed by a line feed. */
  predicate IsFieldName(field: string) {
    var core := if field != "" && field[|field| - 1] == '\n' then field[..|field| - 1] else field;
    core != "" && forall c :: c in core ==> 'a' <= c <= 'z' || 'A' <= c <= 'Z' || '0' <= c <= '9' || c == '_' || c == '-'
  }

  predicate ExtraIsAccepted(f: Extra) {
    (f.op == "==" || f.op == "!=") && IsFieldName(f.field) && '"' !in f.value
  }

  predicate AllExtrasOk(extras: seq<Extra>) {
    forall i :: 0 <= i < |extras| ==> ExtraIsAccepted(extras[i])
  }

  /** An address box is satisfied: it constrains nothing, or one of its entries covers
      the row's address. */
  ghost predicate IpBoxSatisfied(lib: IpLibrary, entries: seq<string>, c: Content) {
    Constrains(entries) ==> SomeIpEntryCovers(lib, entries, c)
  }

  /** What the user asked for. */
  ghost predicate Asked(lib: IpLibrary, b: Boxes, row: Row) {
    && IpBoxSatisfied(lib, SplitEntries(b.source), ContentOf(row, "srcip"))
    && IpBoxSatisfied(lib, SplitEntries(b.destination), ContentOf(row, "dstip"))
    && (Constrains(SplitEntries(b.ports)) ==> SomePortEntryMatches(SplitEntries(b.ports), row))
    && AllExtrasHold(lib, b.extras, row)
  }

  ghost predicate AllIpReadable(lib: IpLibrary, entries: seq<string>) {
    forall i :: 0 <= i < |entries| ==> AddressEntryReads(lib, entries[i])
  }

  ghost predicate AllPortsReadable(entries: seq<string>) {
    forall i :: 0 <= i < |entries| ==> PortEntryReads(entries[i])
  }

  /** Every entry names something and every extra filter passes the checks. */
  ghost predicate Acceptable(lib: IpLibrary, b: Boxes) {
    && AllIpReadable(lib, SplitEntries(b.source))
    && AllIpReadable(lib, SplitEntries(b.destination))
    && AllPortsReadable(SplitEntries(b.ports))
    && AllExtrasOk(b.extras)
    && (Constrains(SplitEntries(b.source)) || Constrains(SplitEntries(b.destination)))
  }

  // ---------- Entries as read and as written ----------

  lemma BlockIsARange(x: Ip, net: Ip, prefix: nat)
    requires prefix <= Width(net.version)
    ensures InBlock(x, net, prefix) <==> InRangeOf(x, net, prefix)
  {
    var size := BlockSize(net.version, prefix);
    var q, k := net.value / size, x.value / size;
    assert net.value == q * size + net.value % size && x.value == k * size + x.value % size;
    if k > q {
      AtLeast(k - q, size);
      assert (k - q) * size == k * size - q * size;
    } else if k < q {
      AtLeast(q - k, size);
      assert (q - k) * size == q * size - k * size;
    }
  }

  lemma AddressEntryReadsAs(lib: IpLibrary, entry: string)
    ensures AddressEntryReads(lib, entry) <==> ReadIpEntry(lib, entry).Some?
  {
    if !SaysAny(entry) {
      AddressEntryIsRead(lib, entry);
      var e := ReadIpEntry(lib, entry);
      if e.Some? {
        match e.value
        case AnyIp =>
        case One(ip) => assert SaysAddress(lib, entry, ip);
        case Block(net, prefix) => assert SaysBlock(lib, entry, net, prefix);
        case Span(lo, hi) => assert SaysSpan(lib, entry, lo, hi);
      }
    }
  }

  lemma AddressEntryCoversAs(lib: IpLibrary, entry: string, x: Ip)
    ensures AddressEntryCovers(lib, entry, x) <==>
              !IsAny(entry) && ReadIpEntry(lib, entry).Some? && EntryCovers(ReadIpEntry(lib, entry).value, x)
  {
    if !SaysAny(entry) {
      AddressEntryIsRead(lib, entry);
      var e := ReadIpEntry(lib, entry);
      if e.Some? {
        match e.value
        case AnyIp =>
        case One(ip) => assert SaysAddress(lib, entry, ip);
        case Block(net, prefix) =>
          assert SaysBlock(lib, entry, net, prefix);
          BlockIsARange(x, net, prefix);
        case Span(lo, hi) => assert SaysSpan(lib, entry, lo, hi);
      }
    }
  }

  lemma PortEntrySelectsAs(entry: string, row: Row)
    ensures PortEntryReads(entry) <==> ReadPortEntry(entry).Some?
    ensures PortEntrySelects(entry, row.dstport, ServiceOf(row)) <==>
              !IsAny(entry) && ReadPortEntry(entry).Some? && PortEntryMatches(ReadPortEntry(entry).value, row)
  {
    if !SaysAny(entry) {
      PortEntryIsRead(entry);
      var e := ReadPortEntry(entry);
      if e.Some? {
        match e.value
        case AnyPort =>
        case Number(text) => assert SaysPort(entry, ParseNat(text));
        case Range(lo, hi) => assert SaysPorts(entry, lo, hi);
        case Service(name) => assert SaysService(entry);
      }
    }
  }

  lemma ExtraAcceptance(f: Extra)
    ensures ExtraShape(f).Ok? <==> ExtraIsAccepted(f)
  {
  }

  // ---------- Single clauses ----------

  lemma IpTextIsWord(lib: IpLibrary, ip: Ip)
    requires Lawful(lib) && ValidIp(ip)
    ensures IsWord(lib.format(ip)) && '/' !in lib.format(ip) && lib.parse(lib.format(ip)) == Some(ip)
    ensures !Reserved(lib.format(ip))
  {
    if Reserved(lib.format(ip)) {
      ReservedIsNoIpText(lib.format(ip));
    }
  }

  lemma ReservedIsNoIpText(s: string)
    requires Reserved(s)
    ensures !IsIpText(s)
  {
    assert s[if s == "and" then 1 else 0] in s;
  }

  lemma MaskedStaysInBlock(x: Ip, net: Ip, prefix: nat)
    requires prefix <= Width(net.version)
    ensures InBlock(x, Masked(net, prefix), prefix) <==> InBlock(x, net, prefix)
  {
    RoundDownSameQuotient(net.value, BlockSize(net.version, prefix));
  }

  lemma RoundDownSameQuotient(v: nat, size: nat)
    requires size > 0
    ensures RoundDown(v, size) / size == v / size
  {
    var q := v / size;
    assert v == q * size + v % size;
    assert RoundDown(v, size) == q * size;
    QuotientOfMultiple(q, size);
  }

  lemma QuotientOfMultiple(q: nat, size: nat)
    requires size > 0
    ensures (q * size) / size == q
  {
    var k, r := (q * size) / size, (q * size) % size;
    assert q * size == k * size + r;
    assert (q - k) * size == q * size - k * size;
    if k < q {
      AtLeast(q - k, size);
    }
  }

  lemma AtLeast(n: nat, size: nat)
    requires n >= 1
    ensures n * size >= size
  {
    assert (n - 1) * size >= 0;
  }

  lemma BlockReadsBack(lib: IpLibrary, net: Ip, prefix: nat)
    requires Lawful(lib) && ValidIp(net) && prefix <= Width(net.version)
    ensures ReadBlock(lib, BlockText(lib, net, prefix)) == Some((Masked(net, prefix), prefix))
    ensures IsWord(BlockText(lib, net, prefix)) && '/' in BlockText(lib, net, prefix)
    ensures !Reserved(BlockText(lib, net, prefix))
  {
    var m := Masked(net, prefix);
    var head, tail := lib.format(m), Decimal(prefix);
    IpTextIsWord(lib, m);
    IndexOfHead(head, '/', tail);
    var text := BlockText(lib, net, prefix);
    assert text == head + ['/'] + tail;
    assert text[..|head|] == head && text[|head| + 1..] == tail;
    assert text[|head|] == '/';
    assert lib.prefix(net.version, Decimal(prefix)) == Some(prefix);
  }

  lemma {:induction false} JoinEval(lib: IpLibrary, row: Row, conn: Conn, parts: seq<Expr>)
    ensures Eval(lib, row, Collapse(conn, parts)) <==>
      if conn == And then forall i :: 0 <= i < |parts| ==> Eval(lib, row, parts[i])
      else exists i :: 0 <= i < |parts| && Eval(lib, row, parts[i])
  {
    if |parts| == 1 {
      assert Eval(lib, row, parts[0]) ==> forall i :: 0 <= i < |parts| ==> Eval(lib, row, parts[i]);
    }
  }

  lemma PairEval(lib: IpLibrary, row: Row, a: Shape, b: Shape)
    ensures Eval(lib, row, Stands(Paren(And, [a, b]))) <==> Eval(lib, row, Stands(a)) && Eval(lib, row, Stands(b))
  {
    var parts := StandsAll([a, b]);
    JoinEval(lib, row, And, parts);
    assert parts[0] == Stands(a) && parts[1] == Stands(b);
  }

  predicate SoundEntry(e: IpEntry) {
    match e
    case AnyIp => true
    case One(a) => ValidIp(a)
    case Block(net, p) => ValidIp(net) && p <= Width(net.version)
    case Span(lo, hi) => ValidIp(lo) && ValidIp(hi) && lo.version == hi.version
  }

  lemma ReadBlockIsSound(lib: IpLibrary, entry: string)
    requires Lawful(lib) && ReadBlock(lib, entry).Some?
    ensures ValidIp(ReadBlock(lib, entry).value.0)
    ensures ReadBlock(lib, entry).value.1 <= Width(ReadBlock(lib, entry).value.0.version)
  {
  }

  lemma ReadEntriesAreSound(lib: IpLibrary, entry: string)
    requires Lawful(lib) && ReadIpEntry(lib, entry).Some?
    ensures SoundEntry(ReadIpEntry(lib, entry).value)
  {
    if IsAny(entry) {
    } else if '-' in entry && '/' !in entry {
      ReadRangeIsSound(lib, entry);
    } else if '/' in entry {
      ReadBlockIsSound(lib, entry);
    }
  }

  lemma ReadRangeIsSound(lib: IpLibrary, entry: string)
    requires Lawful(lib) && ReadRange(lib, entry).Some?
    ensures SoundEntry(ReadRange(lib, entry).value)
  {
    var (start, end) := Partition(entry, '-');
    ParsedIsValid(lib, Strip(start));
    ParsedIsValid(lib, Strip(end));
  }

  lemma ParsedIsValid(lib: IpLibrary, s: string)
    requires Lawful(lib)
    ensures lib.parse(s).Some? ==> ValidIp(lib.parse(s).value)
  {
  }

  lemma BlockClauseMeans(lib: IpLibrary, row: Row, field: string, net: Ip, p: nat)
    requires Lawful(lib) && SoundEntry(Block(net, p)) && (field == "srcip" || field == "dstip")
    ensures Writable(IpShape(lib, field, Block(net, p)))
    ensures Eval(lib, row, Stands(IpShape(lib, field, Block(net, p)))) <==>
              ContentOf(row, field).Address? && InBlock(ContentOf(row, field).ip, net, p)
  {
    assert IsWord("srcip") && IsWord("dstip");
    BlockReadsBack(lib, net, p);
    if ContentOf(row, field).Address? {
      MaskedStaysInBlock(ContentOf(row, field).ip, net, p);
    }
  }

  lemma SpanClauseMeans(lib: IpLibrary, row: Row, field: string, lo: Ip, hi: Ip)
    requires Lawful(lib) && SoundEntry(Span(lo, hi)) && (field == "srcip" || field == "dstip")
    ensures Writable(IpShape(lib, field, Span(lo, hi)))
    ensures Eval(lib, row, Stands(IpShape(lib, field, Span(lo, hi)))) <==>
              var c := ContentOf(row, field);
              c.Address? && c.ip.version == lo.version && lo.value <= c.ip.value <= hi.value
  {
    assert IsWord("srcip") && IsWord("dstip");
    IpTextIsWord(lib, lo);
    IpTextIsWord(lib, hi);
    PairEval(lib, row, Bare(field, Ge, lib.format(lo)), Bare(field, Le, lib.format(hi)));
  }

  lemma IpClauseMeans(lib: IpLibrary, row: Row, field: string, e: IpEntry)
    requires Lawful(lib) && SoundEntry(e) && !e.AnyIp?
    requires field == "srcip" || field == "dstip"
    ensures Writable(IpShape(lib, field, e))
    ensures Eval(lib, row, Stands(IpShape(lib, field, e))) <==>
              ContentOf(row, field).Address? && EntryCovers(e, ContentOf(row, field).ip)
  {
    match e
    case One(a) =>
      assert IsWord("srcip") && IsWord("dstip");
      IpTextIsWord(lib, a);
    case Block(net, p) => BlockClauseMeans(lib, row, field, net, p);
    case Span(lo, hi) => SpanClauseMeans(lib, row, field, lo, hi);
  }

  lemma DigitsAreWords(s: string)
    requires AllDigits(s)
    ensures IsWord(s) && !Reserved(s)
  {
    assert s[0] in s;
  }

  lemma PortSpanMeans(lib: IpLibrary, row: Row, lo: nat, hi: nat)
    ensures Writable(PortShape(Range(lo, hi)))
    ensures Eval(lib, row, Stands(PortShape(Range(lo, hi)))) <==> row.dstport.Some? && lo <= row.dstport.value <= hi
  {
    assert IsWord("dstport");
    DigitsAreWords(Decimal(lo));
    DigitsAreWords(Decimal(hi));
    DecimalReadsBack(lo);
    DecimalReadsBack(hi);
    PairEval(lib, row, Bare("dstport", Ge, Decimal(lo)), Bare("dstport", Le, Decimal(hi)));
  }

  lemma PortClauseMeans(lib: IpLibrary, row: Row, e: PortEntry)
    requires !e.AnyPort? && (e.Number? ==> AllDigits(e.text))
    requires e.Service? ==> forall c :: c in e.name ==> IsServiceChar(c)
    ensures Writable(PortShape(e))
    ensures Eval(lib, row, Stands(PortShape(e))) <==> PortEntryMatches(e, row)
  {
    match e
    case Number(text) =>
      assert IsWord("dstport");
      DigitsAreWords(text);
    case Range(lo, hi) => PortSpanMeans(lib, row, lo, hi);
    case Service(name) =>
      assert IsWord("service");
  }

  lemma {:induction false} NumericIsWord(value: string)
    requires IsNumeric(value)
    ensures IsWord(value) && !Reserved(value)
  {
    if value[0] != '-' {
      DigitsAreWords(value);
    } else {
      if value[1..] != "" {
        NumericIsWord(value[1..]);
      }
      assert value == ['-'] + value[1..];
    }
  }

  lemma ExtraClauseMeans(lib: IpLibrary, row: Row, f: Extra)
    requires ExtraShape(f).Ok?
    ensures Writable(ExtraShape(f).value)
    ensures Eval(lib, row, Stands(ExtraShape(f).value)) <==> ExtraHolds(lib, f, row)
  {
    if IsNumeric(f.value) {
      NumericIsWord(f.value);
    }
    var core := FieldCore(f.field);
    assert forall c :: c in core ==> IsFieldChar(c) && IsWordChar(c);
    assert forall c :: c in f.field[|core|..] ==> c == '\n';
    var s := ExtraShape(f).value;
    assert StandsAll(s.items) == [Stands(s.items[0])];
  }

  // ---------- Whole boxes ----------

  /** An OR-ed list of clauses: something holds. */
  predicate AnyHolds(lib: IpLibrary, row: Row, shapes: seq<Shape>) {
    exists i :: 0 <= i < |shapes| && Eval(lib, row, Stands(shapes[i]))
  }

  lemma AnyHoldsCons(lib: IpLibrary, row: Row, s: Shape, rest: seq<Shape>)
    ensures AnyHolds(lib, row, [s] + rest) <==> Eval(lib, row, Stands(s)) || AnyHolds(lib, row, rest)
  {
    var all := [s] + rest;
    assert all[0] == s;
    if AnyHolds(lib, row, rest) {
      var i :| 0 <= i < |rest| && Eval(lib, row, Stands(rest[i]));
      assert all[i + 1] == rest[i];
    }
    if AnyHolds(lib, row, all) {
      var i :| 0 <= i < |all| && Eval(lib, row, Stands(all[i]));
      assert i > 0 ==> all[i] == rest[i - 1];
    }
  }

  lemma SomeOfCons(first: string, rest: seq<string>, holds: string -> bool)
    ensures var entries := [first] + rest;
            (exists i :: 0 <= i < |entries| && holds(entries[i])) <==>
              holds(first) || exists i :: 0 <= i < |rest| && holds(rest[i])
  {
    var entries := [first] + rest;
    assert entries[0] == first;
    assert forall i :: 0 <= i < |rest| ==> entries[i + 1] == rest[i];
    assert forall i :: 1 <= i < |entries| ==> entries[i] == rest[i - 1];
  }

  /** A box has clauses unless some entry is bad: one for each entry that is one. */
  lemma {:induction false} BoxIsWritable(read: string -> Reading, fault: string -> FilterError, entries: seq<string>)
    requires forall s :: read(s).Clause? ==> Writable(read(s).shape)
    ensures BoxShapes(read, fault, entries).Ok? <==> forall i :: 0 <= i < |entries| ==> !read(entries[i]).Bad?
    ensures BoxShapes(read, fault, entries).Ok? ==>
              && AllWritable(BoxShapes(read, fault, entries).value)
              && (BoxShapes(read, fault, entries).value != [] <==> exists i :: 0 <= i < |entries| && read(entries[i]).Clause?)
  {
    if entries == [] {
    } else {
      var rest := entries[1..];
      BoxIsWritable(read, fault, rest);
      assert forall i :: 1 <= i < |entries| ==> entries[i] == rest[i - 1];
      assert entries == [entries[0]] + rest;
      SomeOfCons(entries[0], rest, (s: string) => read(s).Bad?);
      SomeOfCons(entries[0], rest, (s: string) => read(s).Clause?);
    }
  }

  /** For any way of reading entries whose clauses hold when the entry matches: one of
      the clauses holds exactly when some entry matches. */
  lemma {:induction false} BoxMeans(lib: IpLibrary, row: Row, read: string -> Reading, fault: string -> FilterError,
                                    matches: string -> bool, entries: seq<string>)
    requires forall s :: matches(s) <==> read(s).Clause? && Eval(lib, row, Stands(read(s).shape))
    ensures BoxShapes(read, fault, entries).Ok? ==>
              (AnyHolds(lib, row, BoxShapes(read, fault, entries).value) <==>
                 exists i :: 0 <= i < |entries| && matches(entries[i]))
  {
    if entries == [] {
    } else if BoxShapes(read, fault, entries).Ok? {
      var first, rest := entries[0], entries[1..];
      BoxMeans(lib, row, read, fault, matches, rest);
      assert entries == [first] + rest;
      SomeOfCons(first, rest, matches);
      if read(first).Clause? {
        AnyHoldsCons(lib, row, read(first).shape, BoxShapes(read, fault, rest).value);
      }
    }
  }

  lemma IpEntryMeans(lib: IpLibrary, row: Row, field: string, entry: string)
    requires Lawful(lib) && (field == "srcip" || field == "dstip")
    ensures var r := IpReading(lib, field, entry);
            var c := ContentOf(row, field);
            && (r.Bad? <==> !AddressEntryReads(lib, entry))
            && (r.Clause? <==> !SaysAny(entry) && AddressEntryReads(lib, entry))
            && (r.Clause? ==> Writable(r.shape))
            && (r.Clause? ==> (Eval(lib, row, Stands(r.shape)) <==> c.Address? && AddressEntryCovers(lib, entry, c.ip)))
            && (!r.Clause? && c.Address? ==> !AddressEntryCovers(lib, entry, c.ip))
  {
    var e := ReadIpEntry(lib, entry);
    AddressEntryReadsAs(lib, entry);
    if ContentOf(row, field).Address? {
      AddressEntryCoversAs(lib, entry, ContentOf(row, field).ip);
    }
    if e.Some? && !e.value.AnyIp? {
      ReadEntriesAreSound(lib, entry);
      IpClauseMeans(lib, row, field, e.value);
    }
  }

  lemma IpBoxMeans(lib: IpLibrary, row: Row, field: string, entries: seq<string>)
    requires Lawful(lib) && (field == "srcip" || field == "dstip")
    ensures IpShapes(lib, field, entries).Ok? <==> AllIpReadable(lib, entries)
    ensures IpShapes(lib, field, entries).Ok? ==>
              var shapes := IpShapes(lib, field, entries).value;
              && AllWritable(shapes)
              && (shapes != [] <==> Constrains(entries))
              && (AnyHolds(lib, row, shapes) <==> SomeIpEntryCovers(lib, entries, ContentOf(row, field)))
  {
    var c := ContentOf(row, field);
    var read := IpReader(lib, field);
    var matches := (s: string) => c.Address? && AddressEntryCovers(lib, s, c.ip);
    forall s: string
      ensures read(s).Clause? ==> Writable(read(s).shape) && (Eval(lib, row, Stands(read(s).shape)) <==> matches(s))
      ensures !read(s).Clause? ==> !matches(s)
      ensures read(s).Bad? <==> !AddressEntryReads(lib, s)
      ensures read(s).Clause? <==> !SaysAny(s) && AddressEntryReads(lib, s)
    {
      IpEntryMeans(lib, row, field, s);
    }
    BoxIsWritable(read, IpFault(), entries);
    BoxMeans(lib, row, read, IpFault(), matches, entries);
  }

  lemma PortEntryMeans(lib: IpLibrary, row: Row, entry: string)
    ensures var r := PortReading(entry);
            && (r.Bad? <==> !PortEntryReads(entry))
            && (r.Clause? <==> !SaysAny(entry) && PortEntryReads(entry))
            && (r.Clause? ==> Writable(r.shape))
            && (PortEntrySelects(entry, row.dstport, ServiceOf(row)) <==> r.Clause? && Eval(lib, row, Stands(r.shape)))
  {
    var e := ReadPortEntry(entry);
    PortEntrySelectsAs(entry, row);
    if e.Some? && !e.value.AnyPort? {
      PortClauseMeans(lib, row, e.value);
    }
  }

  lemma PortBoxMeans(lib: IpLibrary, row: Row, entries: seq<string>)
    ensures PortShapes(entries).Ok? <==> AllPortsReadable(entries)
    ensures PortShapes(entries).Ok? ==>
              var shapes := PortShapes(entries).value;
              && AllWritable(shapes)
              && (shapes != [] <==> Constrains(entries))
              && (AnyHolds(lib, row, shapes) <==> SomePortEntryMatches(entries, row))
  {
    var read := PortReader();
    var matches := (s: string) => PortEntrySelects(s, row.dstport, ServiceOf(row));
    forall s: string
      ensures read(s).Clause? ==> Writable(read(s).shape) && (Eval(lib, row, Stands(read(s).shape)) <==> matches(s))
      ensures !read(s).Clause? ==> !matches(s)
      ensures read(s).Bad? <==> !PortEntryReads(s)
      ensures read(s).Clause? <==> !SaysAny(s) && PortEntryReads(s)
    {
      PortEntryMeans(lib, row, s);
    }
    BoxIsWritable(read, PortFault(), entries);
    BoxMeans(lib, row, read, PortFault(), matches, entries);
  }

  predicate AllHold(lib: IpLibrary, row: Row, shapes: seq<Shape>) {
    forall i :: 0 <= i < |shapes| ==> Eval(lib, row, Stands(shapes[i]))
  }

  lemma ExtrasCons(lib: IpLibrary, row: Row, f: Extra, rest: seq<Extra>)
    ensures AllExtrasOk([f] + rest) <==> ExtraIsAccepted(f) && AllExtrasOk(rest)
    ensures AllExtrasHold(lib, [f] + rest, row) <==> ExtraHolds(lib, f, row) && AllExtrasHold(lib, rest, row)
  {
    var all := [f] + rest;
    assert all[0] == f;
    assert forall i :: 0 <= i < |rest| ==> all[i + 1] == rest[i];
    assert forall i :: 1 <= i < |all| ==> all[i] == rest[i - 1];
  }

  lemma OneExtraMeans(lib: IpLibrary, row: Row, f: Extra)
    requires ExtraShape(f).Ok?
    ensures AllWritable([ExtraShape(f).value])
    ensures AllHold(lib, row, [ExtraShape(f).value]) <==> ExtraHolds(lib, f, row)
  {
    ExtraClauseMeans(lib, row, f);
    var shapes := [ExtraShape(f).value];
    assert shapes[0] == ExtraShape(f).value;
  }

  lemma {:induction false} ExtrasMean(lib: IpLibrary, row: Row, extras: seq<Extra>)
    ensures ExtraShapes(extras).Ok? <==> AllExtrasOk(extras)
    ensures ExtraShapes(extras).Ok? ==>
              && AllWritable(ExtraShapes(extras).value)
              && (AllHold(lib, row, ExtraShapes(extras).value) <==> AllExtrasHold(lib, extras, row))
  {
    if extras == [] {
    } else {
      var f, rest := extras[0], extras[1..];
      ExtrasMean(lib, row, rest);
      assert extras == [f] + rest;
      ExtrasCons(lib, row, f, rest);
      ExtraAcceptance(f);
      if ExtraShape(f).Ok? && ExtraShapes(rest).Ok? {
        OneExtraMeans(lib, row, f);
        AllHoldAppend(lib, row, [ExtraShape(f).value], ExtraShapes(rest).value);
      }
    }
  }

  lemma AllHoldAppend(lib: IpLibrary, row: Row, a: seq<Shape>, b: seq<Shape>)
    ensures AllHold(lib, row, a + b) <==> AllHold(lib, row, a) && AllHold(lib, row, b)
  {
    assert forall i :: 0 <= i < |a| ==> (a + b)[i] == a[i];
    assert forall i :: 0 <= i < |b| ==> (a + b)[|a| + i] == b[i];
  }

  lemma GroupMeans(lib: IpLibrary, row: Row, shapes: seq<Shape>)
    requires AllWritable(shapes)
    ensures AllWritable(Group(shapes))
    ensures AllHold(lib, row, Group(shapes)) <==> shapes == [] || AnyHolds(lib, row, shapes)
  {
    if shapes != [] {
      JoinEval(lib, row, Or, StandsAll(shapes));
      assert Group(shapes)[0] == Paren(Or, shapes);
    }
  }

  lemma GroupsMean(lib: IpLibrary, row: Row, source: seq<Shape>, destination: seq<Shape>, ports: seq<Shape>, extras: seq<Shape>)
    requires AllWritable(source) && AllWritable(destination) && AllWritable(ports) && AllWritable(extras)
    ensures AllWritable(Groups(source, destination, ports, extras))
    ensures AllHold(lib, row, Groups(source, destination, ports, extras)) <==>
              && (source == [] || AnyHolds(lib, row, source))
              && (destination == [] || AnyHolds(lib, row, destination))
              && (ports == [] || AnyHolds(lib, row, ports))
              && AllHold(lib, row, extras)
  {
    GroupMeans(lib, row, source);
    GroupMeans(lib, row, destination);
    GroupMeans(lib, row, ports);
    AllHoldAppend(lib, row, Group(source), Group(destination));
    AllHoldAppend(lib, row, Group(source) + Group(destination), Group(ports));
    AllHoldAppend(lib, row, Group(source) + Group(destination) + Group(ports), extras);
  }

  lemma CombinedMeans(lib: IpLibrary, row: Row,
                      source: Result<seq<Shape>, FilterError>, destination: Result<seq<Shape>, FilterError>,
                      ports: Result<seq<Shape>, FilterError>, extras: Result<seq<Shape>, FilterError>)
    requires source.Ok? ==> AllWritable(source.value)
    requires destination.Ok? ==> AllWritable(destination.value)
    requires ports.Ok? ==> AllWritable(ports.value)
    requires extras.Ok? ==> AllWritable(extras.value)
    ensures Combined(source, destination, ports, extras).Ok? <==>
              && source.Ok? && destination.Ok? && ports.Ok? && extras.Ok?
              && (source.value != [] || destination.value != [])
    ensures Combined(source, destination, ports, extras).Ok? ==>
              var groups := Combined(source, destination, ports, extras).value;
              && groups != [] && AllWritable(groups)
              && (AllHold(lib, row, groups) <==>
                    && (source.value == [] || AnyHolds(lib, row, source.value))
                    && (destination.value == [] || AnyHolds(lib, row, destination.value))
                    && (ports.value == [] || AnyHolds(lib, row, ports.value))
                    && AllHold(lib, row, extras.value))
  {
    if Combined(source, destination, ports, extras).Ok? {
      GroupsMean(lib, row, source.value, destination.value, ports.value, extras.value);
    }
  }

  /** The printed groups select what the boxes ask for. */
  lemma ShapesMeanTheBoxes(lib: IpLibrary, b: Boxes, row: Row)
    requires Lawful(lib)
    ensures FilterShapes(lib, b).Ok? <==> Acceptable(lib, b)
    ensures FilterShapes(lib, b).Ok? ==>
              var groups := FilterShapes(lib, b).value;
              && groups != [] && AllWritable(groups)
              && (AllHold(lib, row, groups) <==> Asked(lib, b, row))
  {
    var source, destination, ports := SplitEntries(b.source), SplitEntries(b.destination), SplitEntries(b.ports);
    EntriesMean(lib, row, "srcip", source, "dstip", destination, ports, b.extras);
  }

  lemma EntriesMean(lib: IpLibrary, row: Row, f1: string, source: seq<string>, f2: string, destination: seq<string>,
                    ports: seq<string>, extras: seq<Extra>)
    requires Lawful(lib) && (f1 == "srcip" || f1 == "dstip") && (f2 == "srcip" || f2 == "dstip")
    ensures var r := Combined(IpShapes(lib, f1, source), IpShapes(lib, f2, destination), PortShapes(ports), ExtraShapes(extras));
            && (r.Ok? <==> && AllIpReadable(lib, source) && AllIpReadable(lib, destination)
                           && AllPortsReadable(ports) && AllExtrasOk(extras)
                           && (Constrains(source) || Constrains(destination)))
            && (r.Ok? ==>
                  && r.value != [] && AllWritable(r.value)
                  && (AllHold(lib, row, r.value) <==>
                        && IpBoxSatisfied(lib, source, ContentOf(row, f1))
                        && IpBoxSatisfied(lib, destination, ContentOf(row, f2))
                        && (Constrains(ports) ==> SomePortEntryMatches(ports, row))
                        && AllExtrasHold(lib, extras, row)))
  {
    IpBoxMeans(lib, row, f1, source);
    IpBoxMeans(lib, row, f2, destination);
    PortBoxMeans(lib, row, ports);
    ExtrasMean(lib, row, extras);
    CombinedMeans(lib, row, IpShapes(lib, f1, source), IpShapes(lib, f2, destination), PortShapes(ports), ExtraShapes(extras));
  }

  lemma AllHoldIsEval(lib: IpLibrary, row: Row, shapes: seq<Shape>)
    ensures Eval(lib, row, Collapse(And, StandsAll(shapes))) <==> AllHold(lib, row, shapes)
  {
    JoinEval(lib, row, And, StandsAll(shapes));
  }

  // ---------- Reserved words ----------

  /** No extra filter is on a field called `and` or `or`. */
  predicate NoReservedField(extras: seq<Extra>) {
    forall i :: 0 <= i < |extras| ==> !Reserved(FieldCore(extras[i].field))
  }

  lemma IpShapeIsPlain(lib: IpLibrary, field: string, entry: string)
    requires !Reserved(field)
    ensures IpReading(lib, field, entry).Clause? ==> Plain(IpReading(lib, field, entry).shape)
  {
  }

  lemma PortShapeIsPlain(entry: string)
    ensures PortReading(entry).Clause? ==> Plain(PortReading(entry).shape)
  {
  }

  lemma {:induction false} BoxIsPlain(read: string -> Reading, fault: string -> FilterError, entries: seq<string>)
    requires forall s :: read(s).Clause? ==> Plain(read(s).shape)
    ensures BoxShapes(read, fault, entries).Ok? ==> AllPlain(BoxShapes(read, fault, entries).value)
  {
    if entries == [] {
    } else {
      BoxIsPlain(read, fault, entries[1..]);
    }
  }

  lemma IpBoxIsPlain(lib: IpLibrary, field: string, entries: seq<string>)
    requires !Reserved(field)
    ensures IpShapes(lib, field, entries).Ok? ==> AllPlain(IpShapes(lib, field, entries).value)
  {
    forall s: string ensures IpReader(lib, field)(s).Clause? ==> Plain(IpReader(lib, field)(s).shape) {
      IpShapeIsPlain(lib, field, s);
    }
    BoxIsPlain(IpReader(lib, field), IpFault(), entries);
  }

  lemma PortBoxIsPlain(entries: seq<string>)
    ensures PortShapes(entries).Ok? ==> AllPlain(PortShapes(entries).value)
  {
    forall s: string ensures PortReader()(s).Clause? ==> Plain(PortReader()(s).shape) {
      PortShapeIsPlain(s);
    }
    BoxIsPlain(PortReader(), PortFault(), entries);
  }

  lemma AllPlainAppend(a: seq<Shape>, b: seq<Shape>)
    ensures AllPlain(a + b) <==> AllPlain(a) && AllPlain(b)
  {
    assert forall i :: 0 <= i < |a| ==> (a + b)[i] == a[i];
    assert forall i :: 0 <= i < |b| ==> (a + b)[|a| + i] == b[i];
  }

  lemma ExtraIsPlain(f: Extra)
    requires ExtraShape(f).Ok?
    ensures AllPlain([ExtraShape(f).value]) <==> !Reserved(FieldCore(f.field))
  {
    var s := ExtraShape(f).value;
    assert [s][0] == s;
    assert Plain(s) <==> Plain(s.items[0]);
  }

  lemma {:induction false} ExtrasArePlain(extras: seq<Extra>)
    requires ExtraShapes(extras).Ok?
    ensures AllPlain(ExtraShapes(extras).value) <==> NoReservedField(extras)
  {
    if extras == [] {
    } else {
      ExtrasArePlain(extras[1..]);
      ExtraIsPlain(extras[0]);
      AllPlainAppend([ExtraShape(extras[0]).value], ExtraShapes(extras[1..]).value);
      assert forall i :: 1 <= i < |extras| ==> extras[i] == extras[1..][i - 1];
    }
  }

  lemma GroupsArePlain(source: seq<Shape>, destination: seq<Shape>, ports: seq<Shape>, extras: seq<Shape>)
    requires AllPlain(source) && AllPlain(destination) && AllPlain(ports)
    ensures AllPlain(Groups(source, destination, ports, extras)) <==> AllPlain(extras)
  {
    assert AllPlain(Group(source)) && AllPlain(Group(destination)) && AllPlain(Group(ports));
    AllPlainAppend(Group(source), Group(destination));
    AllPlainAppend(Group(source) + Group(destination), Group(ports));
    AllPlainAppend(Group(source) + Group(destination) + Group(ports), extras);
  }

  lemma FilterIsPlain(lib: IpLibrary, b: Boxes)
    requires FilterShapes(lib, b).Ok?
    ensures AllPlain(FilterShapes(lib, b).value) <==> NoReservedField(b.extras)
  {
    IpBoxIsPlain(lib, "srcip", SplitEntries(b.source));
    IpBoxIsPlain(lib, "dstip", SplitEntries(b.destination));
    PortBoxIsPlain(SplitEntries(b.ports));
    ExtrasArePlain(b.extras);
    GroupsArePlain(IpShapes(lib, "srcip", SplitEntries(b.source)).value, IpShapes(lib, "dstip", SplitEntries(b.destination)).value,
                   PortShapes(SplitEntries(b.ports)).value, ExtraShapes(b.extras).value);
  }

  /** The theorem about the compiler. A request is turned into a filter exactly when
      every entry is acceptable and an address box constrains something. The filter
      text reads back, under either precedence, exactly when no extra filter is on a
      field called `and` or `or`. It then is the AND of one OR-ed group per constrained
      box and one group per extra filter, and a row satisfies it exactly when it
      satisfies what the boxes say. */
  lemma CompiledFilterMeansTheBoxes(lib: IpLibrary, b: Boxes, row: Row, tight: Conn)
    requires Lawful(lib)
    ensures FilterText(lib, b).Ok? <==> Acceptable(lib, b)
    ensures FilterText(lib, b).Ok? ==>
              var parsed := ParseFilter(tight, FilterText(lib, b).value);
              && (parsed.Some? <==> NoReservedField(b.extras))
              && (parsed.Some? ==> parsed.value == Collapse(And, StandsAll(FilterShapes(lib, b).value)))
              && (parsed.Some? ==> (Eval(lib, row, parsed.value) <==> Asked(lib, b, row)))
  {
    ShapesMeanTheBoxes(lib, b, row);
    if FilterShapes(lib, b).Ok? {
      var groups := FilterShapes(lib, b).value;
      FilterIsPlain(lib, b);
      PrintedRunParsesBack(tight, And, groups);
      AllHoldIsEval(lib, row, groups);
    }
  }

  /** No accepted request searches ANY against ANY: every row its filter selects has an
      address that one of the user's entries covers. */
  lemma AcceptedSearchesAreConstrained(lib: IpLibrary, b: Boxes, row: Row, tight: Conn)
    requires Lawful(lib) && FilterText(lib, b).Ok?
    ensures var parsed := ParseFilter(tight, FilterText(lib, b).value);
            parsed.Some? && Eval(lib, row, parsed.value) ==>
              || SomeIpEntryCovers(lib, SplitEntries(b.source), ContentOf(row, "srcip"))
              || SomeIpEntryCovers(lib, SplitEntries(b.destination), ContentOf(row, "dstip"))
  {
    CompiledFilterMeansTheBoxes(lib, b, row, tight);
  }

  /** A rejected box names its first unreadable entry. */
  lemma {:induction false} FirstBadEntryIsNamed(read: string -> Reading, fault: string -> FilterError, entries: seq<string>)
    requires BoxShapes(read, fault, entries).Err?
    ensures exists i :: 0 <= i < |entries| && BoxShapes(read, fault, entries) == Err(fault(entries[i])) &&
              read(entries[i]).Bad? && forall j :: 0 <= j < i ==> !read(entries[j]).Bad?
  {
    if !read(entries[0]).Bad? {
      var rest := entries[1..];
      FirstBadEntryIsNamed(read, fault, rest);
      var i :| 0 <= i < |rest| && BoxShapes(read, fault, rest) == Err(fault(rest[i])) &&
        read(rest[i]).Bad? && forall j :: 0 <= j < i ==> !read(rest[j]).Bad?;
      assert forall j :: 1 <= j < i + 1 ==> entries[j] == rest[j - 1];
      assert entries[i + 1] == rest[i];
    }
  }

  /** The first entry that cannot be read. */
  ghost predicate FirstUnread(entries: seq<string>, readable: string -> bool, e: string) {
    exists i :: 0 <= i < |entries| && entries[i] == e && !readable(e) && forall j :: 0 <= j < i ==> readable(entries[j])
  }

  lemma BoxErrorIsTheFirst(read: string -> Reading, fault: string -> FilterError, entries: seq<string>, readable: string -> bool)
    requires forall s :: read(s).Bad? <==> !readable(s)
    ensures BoxShapes(read, fault, entries).Err? ==>
              exists e :: FirstUnread(entries, readable, e) && BoxShapes(read, fault, entries) == Err(fault(e))
    ensures BoxShapes(read, fault, entries).Ok? ==> forall i :: 0 <= i < |entries| ==> readable(entries[i])
  {
    if BoxShapes(read, fault, entries).Err? {
      FirstBadEntryIsNamed(read, fault, entries);
      var i :| 0 <= i < |entries| && BoxShapes(read, fault, entries) == Err(fault(entries[i])) &&
        read(entries[i]).Bad? && forall j :: 0 <= j < i ==> !read(entries[j]).Bad?;
      assert FirstUnread(entries, readable, entries[i]);
    } else {
      AllGoodReadings(read, fault, entries);
    }
  }

  lemma {:induction false} AllGoodReadings(read: string -> Reading, fault: string -> FilterError, entries: seq<string>)
    requires BoxShapes(read, fault, entries).Ok?
    ensures forall i :: 0 <= i < |entries| ==> !read(entries[i]).Bad?
  {
    if entries == [] {
    } else {
      AllGoodReadings(read, fault, entries[1..]);
      assert forall i :: 1 <= i < |entries| ==> entries[i] == entries[1..][i - 1];
    }
  }

  ghost function AddressReads(lib: IpLibrary): string -> bool {
    s => AddressEntryReads(lib, s)
  }

  ghost function PortReads(): string -> bool {
    s => PortEntryReads(s)
  }

  lemma IpBoxError(lib: IpLibrary, field: string, entries: seq<string>)
    ensures IpShapes(lib, field, entries).Err? ==>
              exists e :: FirstUnread(entries, AddressReads(lib), e) && IpShapes(lib, field, entries) == Err(BadIp(e))
    ensures IpShapes(lib, field, entries).Ok? ==> AllIpReadable(lib, entries)
  {
    forall s: string ensures IpReader(lib, field)(s).Bad? <==> !AddressReads(lib)(s) {
      AddressEntryReadsAs(lib, s);
    }
    BoxErrorIsTheFirst(IpReader(lib, field), IpFault(), entries, AddressReads(lib));
  }

  lemma PortBoxError(entries: seq<string>)
    ensures PortShapes(entries).Err? ==>
              exists e :: FirstUnread(entries, PortReads(), e) && PortShapes(entries) == Err(BadPort(e))
    ensures PortShapes(entries).Ok? ==> AllPortsReadable(entries)
  {
    forall s: string ensures PortReader()(s).Bad? <==> !PortReads()(s) {
      PortEntrySelectsAs(s, Row(None, None, None, map[]));
    }
    BoxErrorIsTheFirst(PortReader(), PortFault(), entries, PortReads());
  }

  /** What is wrong with an extra filter that is not accepted. */
  function FaultOf(f: Extra): FilterError {
    if f.op != "==" && f.op != "!=" then BadOperator(f.op, f.field)
    else if !IsFieldName(f.field) then BadField(f.field)
    else BadValue(f.value, f.field)
  }

  /** The fault of the first extra filter that is not accepted. */
  ghost predicate FirstRefused(extras: seq<Extra>, error: FilterError) {
    exists i :: 0 <= i < |extras| && !ExtraIsAccepted(extras[i]) && error == FaultOf(extras[i]) &&
      forall j :: 0 <= j < i ==> ExtraIsAccepted(extras[j])
  }

  lemma {:induction false} ExtrasError(extras: seq<Extra>)
    ensures ExtraShapes(extras).Err? ==> FirstRefused(extras, ExtraShapes(extras).error)
  {
    if extras == [] {
    } else {
      var rest := extras[1..];
      ExtraAcceptance(extras[0]);
      ExtrasError(rest);
      if ExtraShape(extras[0]).Ok? && ExtraShapes(rest).Err? {
        var i :| 0 <= i < |rest| && !ExtraIsAccepted(rest[i]) && ExtraShapes(rest).error == FaultOf(rest[i]) &&
          forall j :: 0 <= j < i ==> ExtraIsAccepted(rest[j]);
        assert extras[i + 1] == rest[i];
        assert forall j :: 1 <= j < i + 1 ==> extras[j] == rest[j - 1];
      }
    }
  }

  /** The reason a request is refused: the first unreadable entry of the source box, else of
      the destination box, else of the port box; else that no address box constrains
      anything; else the first extra filter that is not accepted. */
  lemma RefusalNamesTheFirstFault(lib: IpLibrary, b: Boxes)
    requires FilterText(lib, b).Err?
    ensures var source, destination, ports := SplitEntries(b.source), SplitEntries(b.destination), SplitEntries(b.ports);
            match FilterText(lib, b).error
            case Unconstrained =>
              && AllIpReadable(lib, source) && AllIpReadable(lib, destination) && AllPortsReadable(ports)
              && !Constrains(source) && !Constrains(destination)
            case Invalid(BadIp(e)) =>
              || FirstUnread(source, AddressReads(lib), e)
              || (AllIpReadable(lib, source) && FirstUnread(destination, AddressReads(lib), e))
            case Invalid(BadPort(e)) =>
              AllIpReadable(lib, source) && AllIpReadable(lib, destination) && FirstUnread(ports, PortReads(), e)
            case Invalid(error) =>
              && AllIpReadable(lib, source) && AllIpReadable(lib, destination) && AllPortsReadable(ports)
              && (Constrains(source) || Constrains(destination)) && FirstRefused(b.extras, error)
  {
    var source, destination, ports := SplitEntries(b.source), SplitEntries(b.destination), SplitEntries(b.ports);
    IpBoxError(lib, "srcip", source);
    IpBoxError(lib, "dstip", destination);
    PortBoxError(ports);
    ExtrasError(b.extras);
    ClausesMeanConstraint(lib, "srcip", source);
    ClausesMeanConstraint(lib, "dstip", destination);
  }

  lemma {:induction false} ClausesMeanConstraint(lib: IpLibrary, field: string, entries: seq<string>)
    ensures IpShapes(lib, field, entries).Ok? ==> (IpShapes(lib, field, entries).value == [] <==> !Constrains(entries))
  {
    if entries == [] {
    } else {
      ClausesMeanConstraint(lib, field, entries[1..]);
      assert forall i :: 1 <= i < |entries| ==> entries[i] == entries[1..][i - 1];
    }
  }

  // ---------- The assumptions about the address library can be met ----------

  function PlainFormat(ip: Ip): string {
    Decimal(ip.version) + ":" + Decimal(ip.value)
  }

  function PlainParse(s: string): Option<Ip> {
    var i := IndexOf(s, ':');
    if i == |s| || !AllDigits(s[..i]) || !AllDigits(s[i + 1..]) then None
    else
      var ip := Ip(ParseNat(s[..i]), ParseNat(s[i + 1..]));
      if ValidIp(ip) then Some(ip) else None
  }

  function PlainPrefix(version: nat, s: string): Option<nat> {
    if AllDigits(s) && ParseNat(s) <= Width(version) then Some(ParseNat(s)) else None
  }

  lemma SomeLibraryIsLawful()
    ensures Lawful(IpLibrary(PlainParse, PlainFormat, PlainPrefix))
  {
    var lib := IpLibrary(PlainParse, PlainFormat, PlainPrefix);
    forall ip | ValidIp(ip)
      ensures IsIpText(lib.format(ip)) && lib.parse(lib.format(ip)) == Some(ip)
    {
      PlainReadsBack(ip);
    }
    forall v: nat, p: nat | p <= Width(v)
      ensures lib.prefix(v, Decimal(p)) == Some(p)
    {
      DecimalReadsBack(p);
    }
  }

  lemma PlainReadsBack(ip: Ip)
    requires ValidIp(ip)
    ensures IsIpText(PlainFormat(ip)) && PlainParse(PlainFormat(ip)) == Some(ip)
  {
    var head, tail := Decimal(ip.version), Decimal(ip.value);
    var s := PlainFormat(ip);
    assert s == head + [':'] + tail;
    IndexOfHead(head, ':', tail);
    DecimalReadsBack(ip.version);
    DecimalReadsBack(ip.value);
    assert s[..|head|] == head && s[|head| + 1..] == tail;
  }

  // ---------- A field called `or` ----------

  lemma BoxOf(raw: string)
    requires raw == "" || (!IsSpace(raw[0]) && !IsSpace(raw[|raw| - 1]))
    requires ',' !in raw
    ensures SplitEntries(raw) == if raw == "" then [] else [raw]
  {
    SplitOfJoined([raw], ',');
    assert JoinWith([','], [raw]) == raw;
    assert NonBlank([raw]) == if raw == "" then [] else [raw];
  }

  lemma IpTextIsOneEntry(text: string)
    requires IsIpText(text)
    ensures SplitEntries(text) == [text] && !IsAny(text) && '-' !in text && '/' !in text
  {
    assert text[0] in text && text[|text| - 1] in text;
    BoxOf(text);
    if IsAny(text) {
      AnyIsNoIpText(text);
    }
  }

  lemma AnyIsNoIpText(text: string)
    requires IsAny(text)
    ensures !IsIpText(text)
  {
    assert LowerChar(text[1]) == Lower(text)[1];
    assert text[1] in text;
  }

  lemma AddressBoxIsReadable(lib: IpLibrary, ip: Ip, entries: seq<string>)
    requires Lawful(lib) && ValidIp(ip) && entries == [lib.format(ip)]
    ensures AllIpReadable(lib, entries) && Constrains(entries)
  {
    IpTextIsOneEntry(lib.format(ip));
    assert SaysAddress(lib, entries[0], ip);
    assert !IsAny(entries[0]);
  }

  lemma OrFilterIsAccepted(extras: seq<Extra>)
    requires extras == [Extra("or", "==", "x")]
    ensures AllExtrasOk(extras) && !NoReservedField(extras)
  {
    assert FieldCore(extras[0].field) == "or";
  }

  lemma OrRequestIsAcceptable(lib: IpLibrary, ip: Ip, b: Boxes)
    requires Lawful(lib) && ValidIp(ip)
    requires b == Boxes(lib.format(ip), "", "", [Extra("or", "==", "x")])
    ensures Acceptable(lib, b) && !NoReservedField(b.extras)
  {
    IpTextIsOneEntry(b.source);
    BoxOf("");
    AddressBoxIsReadable(lib, ip, SplitEntries(b.source));
    OrFilterIsAccepted(b.extras);
  }

  /** Accepted requests whose filter text does not parse, one for each address and any
      address library: the field check lets the name `or` through. */
  lemma FieldNamedOrDoesNotParse(lib: IpLibrary, ip: Ip, tight: Conn)
    requires Lawful(lib) && ValidIp(ip)
    ensures var b := Boxes(lib.format(ip), "", "", [Extra("or", "==", "x")]);
            && FilterText(lib, b).Ok?
            && ParseFilter(tight, FilterText(lib, b).value) == None
  {
    var b := Boxes(lib.format(ip), "", "", [Extra("or", "==", "x")]);
    OrRequestIsAcceptable(lib, ip, b);
    CompiledFilterMeansTheBoxes(lib, b, Row(None, None, None, map[]), tight);
  }
}
