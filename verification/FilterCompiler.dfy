/** From the user's filter boxes to a filter text (app/log_search_filters.py and
    build_filter_expression in app/faz_client.py).

    The methods build the text the way the source does, loop by loop. The functions
    read each entry into what it names, and give the shape its clause prints. */
module FilterCompiler {
  import opened Prelude
  import opened Text
  import opened FilterGrammar

  // ---------- IP addresses ----------

  datatype Ip = Ip(version: nat, value: nat)

  function Width(version: nat): nat { if version == 4 then 32 else 128 }

  function Pow2(n: nat): (p: nat)
    ensures p > 0
  {
    if n == 0 then 1 else 2 * Pow2(n - 1)
  }

  predicate ValidIp(ip: Ip) {
    (ip.version == 4 || ip.version == 6) && ip.value < Pow2(Width(ip.version))
  }

  /** The address library: reading an address, writing one in its canonical form, and
      reading what follows the slash of a block (prefix length or mask). */
  datatype IpLibrary = IpLibrary(
    parse: string -> Option<Ip>,
    format: Ip -> string,
    prefix: (nat, string) -> Option<nat>)

  predicate IsIpText(s: string) {
    s != "" && forall c :: c in s ==> IsDigit(c) || 'a' <= c <= 'f' || c == '.' || c == ':'
  }

  /** What is relied on: canonical text is made of hexadecimal digits, dots and colons
      and reads back; results are in range; a decimal prefix length is understood. */
  ghost predicate Lawful(lib: IpLibrary) {
    && (forall s :: lib.parse(s).Some? ==> ValidIp(lib.parse(s).value))
    && (forall ip :: ValidIp(ip) ==> IsIpText(lib.format(ip)) && lib.parse(lib.format(ip)) == Some(ip))
    && (forall v: nat, s: string :: lib.prefix(v, s).Some? ==> lib.prefix(v, s).value <= Width(v))
    && (forall v: nat, p: nat {:trigger lib.prefix(v, Decimal(p))} :: p <= Width(v) ==> lib.prefix(v, Decimal(p)) == Some(p))
  }

  function BlockSize(version: nat, prefix: nat): (n: nat)
    requires prefix <= Width(version)
    ensures n > 0
  {
    Pow2(Width(version) - prefix)
  }

  function RoundDown(value: nat, size: nat): nat
    requires size > 0
  {
    value - value % size
  }

  /** The address with its host bits cleared. */
  function Masked(ip: Ip, prefix: nat): Ip
    requires prefix <= Width(ip.version)
  {
    ip.(value := RoundDown(ip.value, BlockSize(ip.version, prefix)))
  }

  function ReadBlock(lib: IpLibrary, entry: string): Option<(Ip, nat)> {
    var i := IndexOf(entry, '/');
    if i == |entry| || '/' in entry[i + 1..] then None
    else
      var addr := lib.parse(entry[..i]);
      if addr.None? then None
      else
        var prefix := lib.prefix(addr.value.version, entry[i + 1..]);
        if prefix.None? || prefix.value > Width(addr.value.version) then None
        else Some((addr.value, prefix.value))
  }

  function BlockText(lib: IpLibrary, addr: Ip, prefix: nat): string
    requires prefix <= Width(addr.version)
  {
    lib.format(Masked(addr, prefix)) + "/" + Decimal(prefix)
  }

  // ---------- Entries of an address box ----------

  datatype FilterError =
    | BadIp(entry: string)
    | BadPort(entry: string)
    | BadOperator(op: string, field: string)
    | BadField(field: string)
    | BadValue(value: string, field: string)

  datatype IpEntry = AnyIp | One(addr: Ip) | Block(net: Ip, prefix: nat) | Span(lo: Ip, hi: Ip)

  predicate IsAny(entry: string) {
    Lower(entry) == "any" || Lower(entry) == "all"
  }

  /** The stripped, non-blank pieces between commas. */
  function NonBlank(pieces: seq<string>): seq<string> {
    if pieces == [] then []
    else (if Strip(pieces[0]) != "" then [Strip(pieces[0])] else []) + NonBlank(pieces[1..])
  }

  function SplitEntries(raw: string): seq<string> {
    NonBlank(SplitOn(raw, ','))
  }

  /** Entries are not empty and have no white space at either end; in particular none
      ends with a line feed, which Python's `$` would let through. */
  lemma {:induction false} EntriesAreStripped(pieces: seq<string>, i: nat)
    requires i < |NonBlank(pieces)|
    ensures var e := NonBlank(pieces)[i];
            e != "" && !IsSpace(e[0]) && !IsSpace(e[|e| - 1])
  {
    var head := if Strip(pieces[0]) != "" then [Strip(pieces[0])] else [];
    StrippedEnds(pieces[0]);
    if i >= |head| {
      EntriesAreStripped(pieces[1..], i - |head|);
    }
  }

  /** Two addresses around the first hyphen, of one version and in order. */
  function ReadRange(lib: IpLibrary, entry: string): (r: Option<IpEntry>)
    ensures r.Some? ==> r.value.Span?
  {
    var (start, end) := Partition(entry, '-');
    var lo, hi := lib.parse(Strip(start)), lib.parse(Strip(end));
    if lo.None? || hi.None? || lo.value.version != hi.value.version || lo.value.value > hi.value.value then None
    else Some(Span(lo.value, hi.value))
  }

  function ReadAddress(lib: IpLibrary, entry: string): (r: Option<IpEntry>)
    ensures r.Some? ==> !r.value.AnyIp? && (r.value.Block? ==> r.value.prefix <= Width(r.value.net.version))
  {
    if '/' in entry then
      var b := ReadBlock(lib, entry);
      if b.None? then None else Some(Block(b.value.0, b.value.1))
    else
      var a := lib.parse(entry);
      if a.None? then None else Some(One(a.value))
  }

  function ReadIpEntry(lib: IpLibrary, entry: string): (r: Option<IpEntry>)
    ensures r.Some? && r.value.Block? ==> r.value.prefix <= Width(r.value.net.version)
    ensures r == Some(AnyIp) <==> IsAny(entry)
  {
    if IsAny(entry) then Some(AnyIp)
    else if '-' in entry && '/' !in entry then ReadRange(lib, entry)
    else ReadAddress(lib, entry)
  }

  function Bare(field: string, op: Op, lit: string): Shape {
    Leaf(field, "", op, lit, false)
  }

  function IpShape(lib: IpLibrary, field: string, e: IpEntry): Shape
    requires !e.AnyIp?
    requires e.Block? ==> e.prefix <= Width(e.net.version)
  {
    match e
    case One(a) => Bare(field, Eq, lib.format(a))
    case Block(a, p) => Bare(field, Eq, BlockText(lib, a, p))
    case Span(lo, hi) => Paren(And, [Bare(field, Ge, lib.format(lo)), Bare(field, Le, lib.format(hi))])
  }

  /** What one entry contributes: nothing readable, no limit (ANY/ALL), or a clause. */
  datatype Reading = Bad | NoLimit | Clause(shape: Shape)

  function IpReading(lib: IpLibrary, field: string, entry: string): Reading {
    var e := ReadIpEntry(lib, entry);
    if e.None? then Bad else if e.value.AnyIp? then NoLimit else Clause(IpShape(lib, field, e.value))
  }

  /** The clauses of a box, in order, or the first entry that names nothing. */
  function BoxShapes(read: string -> Reading, fault: string -> FilterError, entries: seq<string>): Result<seq<Shape>, FilterError> {
    if entries == [] then Ok([])
    else if read(entries[0]).Bad? then Err(fault(entries[0]))
    else
      var rest := BoxShapes(read, fault, entries[1..]);
      if read(entries[0]).Clause? then Onto([read(entries[0]).shape], rest) else rest
  }

  function IpReader(lib: IpLibrary, field: string): string -> Reading {
    entry => IpReading(lib, field, entry)
  }

  function IpFault(): string -> FilterError { entry => BadIp(entry) }

  function IpShapes(lib: IpLibrary, field: string, entries: seq<string>): Result<seq<Shape>, FilterError> {
    BoxShapes(IpReader(lib, field), IpFault(), entries)
  }

  function PrintAll(shapes: seq<Shape>): (r: seq<string>)
    ensures |r| == |shapes| && forall i :: 0 <= i < |r| ==> r[i] == Print(shapes[i])
  {
    if shapes == [] then [] else [Print(shapes[0])] + PrintAll(shapes[1..])
  }

  function Clauses(r: Result<seq<Shape>, FilterError>): Result<seq<string>, FilterError> {
    if r.Err? then Err(r.error) else Ok(PrintAll(r.value))
  }

  function Written(reading: Reading, error: FilterError): Result<Option<string>, FilterError> {
    match reading
    case Bad => Err(error)
    case NoLimit => Ok(None)
    case Clause(s) => Ok(Some(Print(s)))
  }

  method RangeClause(lib: IpLibrary, field: string, entry: string) returns (r: Result<string, FilterError>)
    ensures r == var e := ReadRange(lib, entry);
                 if e.None? then Err(BadIp(entry)) else Ok(Print(IpShape(lib, field, e.value)))
  {
    var (start, end) := Partition(entry, '-');
    var lo, hi := lib.parse(Strip(start)), lib.parse(Strip(end));
    if lo.None? || hi.None? {
      return Err(BadIp(entry));
    }
    if lo.value.version != hi.value.version {
      return Err(BadIp(entry));
    }
    if lo.value.value > hi.value.value {
      return Err(BadIp(entry));
    }
    SpanText(field, lib.format(lo.value), lib.format(hi.value));
    r := Ok("(" + field + ">=" + lib.format(lo.value) + " and " + field + "<=" + lib.format(hi.value) + ")");
  }

  method AddressClause(lib: IpLibrary, field: string, entry: string) returns (r: Result<string, FilterError>)
    ensures r == var e := ReadAddress(lib, entry);
                 if e.None? then Err(BadIp(entry)) else Ok(Print(IpShape(lib, field, e.value)))
  {
    if '/' in entry {
      var network := ReadBlock(lib, entry);
      if network.None? {
        return Err(BadIp(entry));
      }
      var (addr, prefix) := network.value;
      BareText(field, Eq, BlockText(lib, addr, prefix));
      return Ok(field + "==" + BlockText(lib, addr, prefix));
    }
    var addr := lib.parse(entry);
    if addr.None? {
      return Err(BadIp(entry));
    }
    BareText(field, Eq, lib.format(addr.value));
    r := Ok(field + "==" + lib.format(addr.value));
  }

  /** The clause one entry contributes, if it is not ANY/ALL. */
  method IpClause(lib: IpLibrary, field: string, entry: string) returns (r: Result<Option<string>, FilterError>)
    ensures r == Written(IpReading(lib, field, entry), BadIp(entry))
  {
    if IsAny(entry) {
      return Ok(None);
    }
    var clause;
    if '-' in entry && '/' !in entry {
      clause := RangeClause(lib, field, entry);
    } else {
      clause := AddressClause(lib, field, entry);
    }
    r := if clause.Err? then Err(clause.error) else Ok(Some(clause.value));
  }

  method CollectIpClauses(lib: IpLibrary, field: string, entries: seq<string>) returns (r: Result<seq<string>, FilterError>)
    ensures r == Clauses(IpShapes(lib, field, entries))
  {
    var clauses: seq<string> := [];
    ghost var shapes: seq<Shape> := [];
    assert entries[0..] == entries;
    OntoNothing(IpShapes(lib, field, entries));
    for n := 0 to |entries|
      invariant clauses == PrintAll(shapes)
      invariant IpShapes(lib, field, entries) == Onto(shapes, IpShapes(lib, field, entries[n..]))
    {
      BoxStep(IpReader(lib, field), IpFault(), entries, n, shapes);
      var clause := IpClause(lib, field, entries[n]);
      if clause.Err? {
        return Err(clause.error);
      }
      if clause.value.Some? {
        clauses := clauses + [clause.value.value];
        shapes := shapes + [IpReading(lib, field, entries[n]).shape];
      }
    }
    assert entries[|entries|..] == [] && shapes + [] == shapes;
    r := Ok(clauses);
  }

  method ParseIpEntries(lib: IpLibrary, raw: string, field: string) returns (r: Result<seq<string>, FilterError>)
    ensures r == Clauses(IpShapes(lib, field, SplitEntries(raw)))
  {
    r := CollectIpClauses(lib, field, SplitEntries(raw));
  }

  // ---------- Loop bookkeeping ----------

  function Onto(done: seq<Shape>, rest: Result<seq<Shape>, FilterError>): Result<seq<Shape>, FilterError> {
    if rest.Err? then rest else Ok(done + rest.value)
  }

  lemma OntoNothing(rest: Result<seq<Shape>, FilterError>)
    ensures Onto([], rest) == rest
  {
    if rest.Ok? {
      assert [] + rest.value == rest.value;
    }
  }

  lemma OntoTwice(done: seq<Shape>, s: Shape, rest: Result<seq<Shape>, FilterError>)
    ensures Onto(done + [s], rest) == Onto(done, Onto([s], rest))
  {
    if rest.Ok? {
      assert done + [s] + rest.value == done + ([s] + rest.value);
    }
  }

  lemma {:induction false} PrintAllAppend(shapes: seq<Shape>, s: Shape)
    ensures PrintAll(shapes + [s]) == PrintAll(shapes) + [Print(s)]
  {
  }

  lemma BoxStep(read: string -> Reading, fault: string -> FilterError, entries: seq<string>, n: nat, shapes: seq<Shape>)
    requires n < |entries|
    ensures var rest := BoxShapes(read, fault, entries[n + 1..]);
            Onto(shapes, BoxShapes(read, fault, entries[n..])) ==
              match read(entries[n])
              case Bad => Err(fault(entries[n]))
              case NoLimit => Onto(shapes, rest)
              case Clause(s) => Onto(shapes + [s], rest)
    ensures read(entries[n]).Clause? ==>
              PrintAll(shapes + [read(entries[n]).shape]) == PrintAll(shapes) + [Print(read(entries[n]).shape)]
  {
    assert entries[n..][0] == entries[n] && entries[n..][1..] == entries[n + 1..];
    if read(entries[n]).Clause? {
      OntoTwice(shapes, read(entries[n]).shape, BoxShapes(read, fault, entries[n + 1..]));
      PrintAllAppend(shapes, read(entries[n]).shape);
    }
  }

  lemma BareText(field: string, op: Op, lit: string)
    ensures Print(Bare(field, op, lit)) == field + SignText(op) + lit
  {
    assert field + "" == field;
  }

  lemma PairText(a: Shape, b: Shape)
    ensures Print(Paren(And, [a, b])) == "(" + Print(a) + " and " + Print(b) + ")"
  {
    var items := [a, b];
    assert items[1..] == [b];
    assert PrintRun(And, items) == Print(a) + " and " + Print(b);
  }

  lemma SpanText(field: string, lo: string, hi: string)
    ensures Print(Paren(And, [Bare(field, Ge, lo), Bare(field, Le, hi)]))
            == "(" + field + ">=" + lo + " and " + field + "<=" + hi + ")"
  {
    BareText(field, Ge, lo);
    BareText(field, Le, hi);
    PairText(Bare(field, Ge, lo), Bare(field, Le, hi));
    JoinsUp(field, ">=", lo, " and ", field, "<=", hi);
  }

  lemma JoinsUp(a: string, b: string, c: string, d: string, e: string, f: string, g: string)
    ensures "(" + (a + b + c) + d + (e + f + g) + ")" == "(" + a + b + c + d + e + f + g + ")"
  {
  }

  // ---------- Entries of the port box ----------

  datatype PortEntry = AnyPort | Number(text: string) | Range(lo: nat, hi: nat) | Service(name: string)

  predicate IsServiceChar(c: char) {
    IsDigit(c) || 'a' <= c <= 'z' || 'A' <= c <= 'Z' || c == '.' || c == '_' || c == '/' || c == '+' || c == '-'
  }

  predicate HasProtocol(entry: string) {
    |entry| >= 4 && (Lower(entry[..4]) == "tcp:" || Lower(entry[..4]) == "udp:")
  }

  /** `tcp:` or `udp:`, digits, a hyphen, digits. */
  function MatchRange(entry: string): Option<(nat, nat)> {
    if !HasProtocol(entry) then None
    else
      var body := entry[4..];
      var i := IndexOf(body, '-');
      if i == |body| || !AllDigits(body[..i]) || !AllDigits(body[i + 1..]) then None
      else Some((ParseNat(body[..i]), ParseNat(body[i + 1..])))
  }

  function ReadPortEntry(entry: string): (r: Option<PortEntry>)
    ensures r.Some? && r.value.Number? ==> AllDigits(r.value.text)
  {
    if IsAny(entry) then Some(AnyPort)
    else if MatchRange(entry).Some? then
      var (lo, hi) := MatchRange(entry).value;
      if lo > hi then None else Some(Range(lo, hi))
    else if AllDigits(entry) then Some(Number(entry))
    else if HasProtocol(entry) && AllDigits(entry[4..]) then Some(Number(entry[4..]))
    else if entry != "" && forall c :: c in entry ==> IsServiceChar(c) then Some(Service(entry))
    else None
  }

  function PortShape(e: PortEntry): Shape
    requires !e.AnyPort?
  {
    match e
    case Number(text) => Bare("dstport", Eq, text)
    case Range(lo, hi) => Paren(And, [Bare("dstport", Ge, Decimal(lo)), Bare("dstport", Le, Decimal(hi))])
    case Service(name) => Leaf("service", "", Eq, name, true)
  }

  function PortReading(entry: string): Reading {
    var e := ReadPortEntry(entry);
    if e.None? then Bad else if e.value.AnyPort? then NoLimit else Clause(PortShape(e.value))
  }

  function PortReader(): string -> Reading { entry => PortReading(entry) }

  function PortFault(): string -> FilterError { entry => BadPort(entry) }

  function PortShapes(entries: seq<string>): Result<seq<Shape>, FilterError> {
    BoxShapes(PortReader(), PortFault(), entries)
  }

  lemma PortText(lit: string)
    ensures Print(Bare("dstport", Eq, lit)) == "dstport==" + lit
  {
    BareText("dstport", Eq, lit);
    assert "dstport" + "==" == "dstport==";
  }

  lemma PortSpanText(lo: string, hi: string)
    ensures Print(Paren(And, [Bare("dstport", Ge, lo), Bare("dstport", Le, hi)]))
            == "(dstport>=" + lo + " and dstport<=" + hi + ")"
  {
    SpanText("dstport", lo, hi);
    var head := "(" + "dstport" + ">=" + lo;
    assert "(" + "dstport" + ">=" == "(dstport>=";
    assert head + " and " + "dstport" + "<=" == head + " and dstport<=";
  }

  method PortClause(entry: string) returns (r: Result<Option<string>, FilterError>)
    ensures r == Written(PortReading(entry), BadPort(entry))
  {
    if IsAny(entry) {
      return Ok(None);
    }
    var range := MatchRange(entry);
    if range.Some? {
      var (lo, hi) := range.value;
      if lo > hi {
        return Err(BadPort(entry));
      }
      PortSpanText(Decimal(lo), Decimal(hi));
      return Ok(Some("(dstport>=" + Decimal(lo) + " and dstport<=" + Decimal(hi) + ")"));
    }
    if AllDigits(entry) {
      PortText(entry);
      return Ok(Some("dstport==" + entry));
    }
    if HasProtocol(entry) && AllDigits(entry[4..]) {
      PortText(entry[4..]);
      return Ok(Some("dstport==" + entry[4..]));
    }
    if !(entry != "" && forall c :: c in entry ==> IsServiceChar(c)) {
      return Err(BadPort(entry));
    }
    ServiceText(entry);
    return Ok(Some("service==\"" + entry + "\""));
  }

  lemma ServiceText(name: string)
    ensures Print(PortShape(Service(name))) == "service==\"" + name + "\""
  {
  }

  method CollectPortClauses(entries: seq<string>) returns (r: Result<seq<string>, FilterError>)
    ensures r == Clauses(PortShapes(entries))
  {
    var clauses: seq<string> := [];
    ghost var shapes: seq<Shape> := [];
    assert entries[0..] == entries;
    OntoNothing(PortShapes(entries));
    for n := 0 to |entries|
      invariant clauses == PrintAll(shapes)
      invariant PortShapes(entries) == Onto(shapes, PortShapes(entries[n..]))
    {
      BoxStep(PortReader(), PortFault(), entries, n, shapes);
      var clause := PortClause(entries[n]);
      if clause.Err? {
        return Err(clause.error);
      }
      if clause.value.Some? {
        clauses := clauses + [clause.value.value];
        shapes := shapes + [PortReading(entries[n]).shape];
      }
    }
    assert entries[|entries|..] == [] && shapes + [] == shapes;
    r := Ok(clauses);
  }

  method ParsePortEntries(raw: string) returns (r: Result<seq<string>, FilterError>)
    ensures r == Clauses(PortShapes(SplitEntries(raw)))
  {
    r := CollectPortClauses(SplitEntries(raw));
  }

  // ---------- Extra filters and the whole expression ----------

  datatype Extra = Extra(field: string, op: string, value: string)

  predicate IsFieldChar(c: char) {
    IsDigit(c) || 'a' <= c <= 'z' || 'A' <= c <= 'Z' || c == '_' || c == '-'
  }

  /** Python's `$` also matches just before a final line feed, so a field name may carry one. */
  function FieldCore(field: string): string {
    if field != "" && field[|field| - 1] == '\n' then field[..|field| - 1] else field
  }

  predicate FieldOk(field: string) {
    FieldCore(field) != "" && forall c :: c in FieldCore(field) ==> IsFieldChar(c)
  }

  /** Written without quotes: hyphens, then digits. */
  predicate IsNumeric(value: string) {
    AllDigits(SkipDashes(value))
  }

  predicate DashesThenDigits(value: string, k: nat) {
    k <= |value| && (forall i :: 0 <= i < k ==> value[i] == '-') && AllDigits(value[k..])
  }

  lemma {:induction false} DigitsAfterDashes(value: string, k: nat)
    requires DashesThenDigits(value, k)
    ensures IsNumeric(value)
  {
    if k == 0 {
      assert value[0..] == value && value[0] in value;
    } else {
      assert value[1..][k - 1..] == value[k..];
      DigitsAfterDashes(value[1..], k - 1);
    }
  }

  lemma {:induction false} DashesBeforeDigits(value: string) returns (k: nat)
    requires IsNumeric(value)
    ensures DashesThenDigits(value, k)
  {
    if value != "" && value[0] == '-' {
      var before := DashesBeforeDigits(value[1..]);
      k := before + 1;
      assert value[k..] == value[1..][k - 1..];
      assert forall i :: 1 <= i < k ==> value[i] == value[1..][i - 1];
    } else {
      k := 0;
      assert value[0..] == value;
    }
  }

  /** A value is written without quotes exactly if it is digits after any number of hyphens. */
  lemma NumericIs(value: string)
    ensures IsNumeric(value) <==> exists k: nat :: DashesThenDigits(value, k)
  {
    if IsNumeric(value) {
      var k := DashesBeforeDigits(value);
    }
    if k: nat :| DashesThenDigits(value, k) {
      DigitsAfterDashes(value, k);
    }
  }

  function ExtraShape(f: Extra): Result<Shape, FilterError> {
    if f.op != "==" && f.op != "!=" then Err(BadOperator(f.op, f.field))
    else if !FieldOk(f.field) then Err(BadField(f.field))
    else if '"' in f.value then Err(BadValue(f.value, f.field))
    else
      Ok(Paren(And, [Leaf(FieldCore(f.field), f.field[|FieldCore(f.field)|..],
                          if f.op == "==" then Eq else Ne, f.value, !IsNumeric(f.value))]))
  }

  function ExtraShapes(extras: seq<Extra>): Result<seq<Shape>, FilterError> {
    if extras == [] then Ok([])
    else
      var s := ExtraShape(extras[0]);
      if s.Err? then Err(s.error) else Onto([s.value], ExtraShapes(extras[1..]))
  }

  function Group(shapes: seq<Shape>): seq<Shape> {
    if shapes == [] then [] else [Paren(Or, shapes)]
  }

  /** The AND-ed groups of a filter: one OR-ed group per constrained box, then one
      group per extra filter. */
  function Groups(source: seq<Shape>, destination: seq<Shape>, ports: seq<Shape>, extras: seq<Shape>): seq<Shape> {
    Group(source) + Group(destination) + Group(ports) + extras
  }

  lemma {:induction false} JoinPrints(conn: Conn, shapes: seq<Shape>)
    ensures JoinWith(Separator(conn), PrintAll(shapes)) == PrintRun(conn, shapes)
  {
    if |shapes| <= 1 {
    } else {
      JoinPrints(conn, shapes[1..]);
      assert PrintAll(shapes)[1..] == PrintAll(shapes[1..]);
    }
  }

  /** `source`, `destination` and `ports` are the shapes the given clauses were printed from. */
  method BuildFilterExpression(
    sourceClauses: seq<string>, destinationClauses: seq<string>, portClauses: seq<string>, extras: seq<Extra>,
    ghost source: seq<Shape>, ghost destination: seq<Shape>, ghost ports: seq<Shape>)
    returns (r: Result<string, FilterError>)
    requires sourceClauses == PrintAll(source) && destinationClauses == PrintAll(destination)
    requires portClauses == PrintAll(ports)
    ensures r == var e := ExtraShapes(extras);
                 if e.Err? then Err(e.error) else Ok(PrintRun(And, Groups(source, destination, ports, e.value)))
  {
    var groups: seq<string> := [];
    ghost var shapes: seq<Shape> := [];
    var lists := [sourceClauses, destinationClauses, portClauses];
    ghost var origins := [source, destination, ports];
    for n := 0 to 3
      invariant groups == PrintAll(shapes)
      invariant n == 0 ==> shapes == []
      invariant n == 1 ==> shapes == Group(source)
      invariant n == 2 ==> shapes == Group(source) + Group(destination)
      invariant n == 3 ==> shapes == Group(source) + Group(destination) + Group(ports)
    {
      assert lists[n] == PrintAll(origins[n]);
      if lists[n] != [] {
        JoinPrints(Or, origins[n]);
        PrintAllAppend(shapes, Paren(Or, origins[n]));
        groups := groups + ["(" + JoinWith(" or ", lists[n]) + ")"];
        shapes := shapes + [Paren(Or, origins[n])];
      }
    }
    ghost var boxes := shapes;
    assert extras[0..] == extras;
    for n := 0 to |extras|
      invariant groups == PrintAll(shapes)
      invariant Onto(boxes, ExtraShapes(extras)) == Onto(shapes, ExtraShapes(extras[n..]))
    {
      var f := extras[n];
      assert extras[n..][1..] == extras[n + 1..];
      ghost var s := ExtraShape(f);
      if f.op !in {"==", "!="} {
        return Err(BadOperator(f.op, f.field));
      }
      if !FieldOk(f.field) {
        return Err(BadField(f.field));
      }
      if '"' in f.value {
        return Err(BadValue(f.value, f.field));
      }
      var quotedValue := if IsNumeric(f.value) then f.value else "\"" + f.value + "\"";
      ExtraText(f);
      OntoTwice(shapes, s.value, ExtraShapes(extras[n + 1..]));
      PrintAllAppend(shapes, s.value);
      groups := groups + ["(" + f.field + f.op + quotedValue + ")"];
      shapes := shapes + [s.value];
    }
    assert shapes + [] == shapes;
    JoinPrints(And, shapes);
    r := Ok(JoinWith(" and ", groups));
  }

  lemma ExtraText(f: Extra)
    requires ExtraShape(f).Ok?
    ensures Print(ExtraShape(f).value)
            == "(" + f.field + f.op + (if IsNumeric(f.value) then f.value else "\"" + f.value + "\"") + ")"
  {
    var core := FieldCore(f.field);
    assert core + f.field[|core|..] == f.field;
    var s := ExtraShape(f).value;
    var lit := if IsNumeric(f.value) then f.value else "\"" + f.value + "\"";
    assert Print(s.items[0]) == core + f.field[|core|..] + f.op + lit == f.field + f.op + lit;
    assert PrintRun(And, s.items) == Print(s.items[0]);
    assert Print(s) == "(" + (f.field + f.op + lit) + ")";
  }

  // ---------- A search request ----------

  datatype Boxes = Boxes(source: string, destination: string, ports: string, extras: seq<Extra>)

  datatype SearchError = Invalid(error: FilterError) | Unconstrained

  /** The groups of the filter a request asks for, or its first error: the boxes in
      order, the no-ANY/ANY rule, then the extra filters. */
  function Combined(source: Result<seq<Shape>, FilterError>, destination: Result<seq<Shape>, FilterError>,
                    ports: Result<seq<Shape>, FilterError>, extras: Result<seq<Shape>, FilterError>)
    : Result<seq<Shape>, SearchError>
  {
    if source.Err? then Err(Invalid(source.error))
    else if destination.Err? then Err(Invalid(destination.error))
    else if ports.Err? then Err(Invalid(ports.error))
    else if source.value == [] && destination.value == [] then Err(Unconstrained)
    else if extras.Err? then Err(Invalid(extras.error))
    else Ok(Groups(source.value, destination.value, ports.value, extras.value))
  }

  function FilterShapes(lib: IpLibrary, b: Boxes): Result<seq<Shape>, SearchError> {
    Combined(IpShapes(lib, "srcip", SplitEntries(b.source)), IpShapes(lib, "dstip", SplitEntries(b.destination)),
             PortShapes(SplitEntries(b.ports)), ExtraShapes(b.extras))
  }

  function FilterText(lib: IpLibrary, b: Boxes): Result<string, SearchError> {
    var groups := FilterShapes(lib, b);
    if groups.Err? then Err(groups.error) else Ok(PrintRun(And, groups.value))
  }

  /** The filter part of the search route: boxes to clauses, the no-ANY/ANY rule, then
      the expression. */
  method CompileSearch(lib: IpLibrary, b: Boxes) returns (r: Result<string, SearchError>)
    ensures r == FilterText(lib, b)
  {
    var source := ParseIpEntries(lib, b.source, "srcip");
    if source.Err? {
      return Err(Invalid(source.error));
    }
    var destination := ParseIpEntries(lib, b.destination, "dstip");
    if destination.Err? {
      return Err(Invalid(destination.error));
    }
    var ports := ParsePortEntries(b.ports);
    if ports.Err? {
      return Err(Invalid(ports.error));
    }
    if source.value == [] && destination.value == [] {
      return Err(Unconstrained);
    }
    var built := BuildFilterExpression(source.value, destination.value, ports.value, b.extras,
      IpShapes(lib, "srcip", SplitEntries(b.source)).value,
      IpShapes(lib, "dstip", SplitEntries(b.destination)).value,
      PortShapes(SplitEntries(b.ports)).value);
    if built.Err? {
      return Err(Invalid(built.error));
    }
    r := Ok(built.value);
  }
}
