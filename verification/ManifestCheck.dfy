/** The SGPIO manifest validator: the checks in the tool's order, what no errors means, and what it
    guarantees about physical pins. */
module ManifestCheck {
  import opened Bytes
  import opened ManifestMerge

  /** A finding: which check failed, and the list position it failed at. */
  datatype Issue = Issue(check: string, at: nat)

  const U32_MAX := 0xFFFF_FFFF

  /** `dict.get`: a missing field reads like null. */
  function Get(m: JsonMap, k: string): Json {
    if k in m then m[k] else Null
  }

  predicate NonNegInt(v: Json) {
    v.Int? && v.n >= 0
  }

  /** Python's `isinstance(v, int)`, which lets booleans through, and the number it then stands for. */
  predicate PyInt(v: Json) {
    v.Int? || v.Bool?
  }

  function PyValue(v: Json): int
    requires PyInt(v)
  {
    if v.Int? then v.n else if v.b then 1 else 0
  }

  /** Python's `==` between an integer and a JSON value. */
  predicate EqualsInt(v: Json, n: int) {
    (PyInt(v) && PyValue(v) == n) || (v.Float? && v.r == n as real)
  }

  predicate NonEmptyStr(v: Json) {
    v.Str? && v.s != ""
  }

  /** Parsing of hexadecimal strings belongs to the language runtime: a parameter. */
  type HexParser = string -> Option<nat>

  // ---- declarative well-formedness ----

  predicate Address(v: Json, hex: HexParser) {
    (v.Str? && hex(v.s).Some? && hex(v.s).value <= U32_MAX) || (NonNegInt(v) && v.n <= U32_MAX)
  }

  predicate ControllerOk(c: JsonMap, hex: HexParser) {
    && Get(c, "name").Str?
    && Address(Get(c, "base_addr"), hex)
    && NonNegInt(Get(c, "bus_frequency_hz")) && Get(c, "bus_frequency_hz").n <= U32_MAX
    && NonNegInt(Get(c, "ngpios")) && 1 <= Get(c, "ngpios").n <= 128
    && Get(c, "enabled").Bool?
  }

  predicate Boundary(n: int) {
    n == 0 || n == 32 || n == 64 || n == 96
  }

  /** A bank on its own: a name, a 32-pin boundary, a size that fits, reserved pins inside. */
  predicate BankOk(b: Json, lines: Json) {
    && b.Obj?
    && NonEmptyStr(Get(b.fields, "name"))
    && NonNegInt(Get(b.fields, "pin_offset")) && Boundary(Get(b.fields, "pin_offset").n)
    && NonNegInt(Get(b.fields, "ngpios")) && 1 <= Get(b.fields, "ngpios").n <= 32
    && (PyInt(lines) ==> Get(b.fields, "pin_offset").n + Get(b.fields, "ngpios").n <= PyValue(lines))
    && Get(b.fields, "reserved_pins").List?
    && ReservedOk(Get(b.fields, "reserved_pins").items, Get(b.fields, "ngpios"))
  }

  predicate ReservedOk(pins: seq<Json>, ngpios: Json) {
    forall j :: 0 <= j < |pins| ==> NonNegInt(pins[j]) && (PyInt(ngpios) ==> pins[j].n < PyValue(ngpios))
  }

  function BankName(b: Json): string {
    if b.Obj? && Get(b.fields, "name").Str? then Get(b.fields, "name").s else ""
  }

  function Offset(b: Json): int {
    if b.Obj? && Get(b.fields, "pin_offset").Int? then Get(b.fields, "pin_offset").n else -1
  }

  function Size(b: Json): int {
    if b.Obj? && Get(b.fields, "ngpios").Int? then Get(b.fields, "ngpios").n else 0
  }

  ghost predicate AllDiffer<T(!new)>(xs: seq<T>) {
    forall i, j :: 0 <= i < j < |xs| ==> xs[i] != xs[j]
  }

  function BankNames(banks: seq<Json>): seq<string> {
    seq(|banks|, i requires 0 <= i < |banks| => BankName(banks[i]))
  }

  function Offsets(banks: seq<Json>): seq<int> {
    seq(|banks|, i requires 0 <= i < |banks| => Offset(banks[i]))
  }

  ghost predicate BanksOk(banks: seq<Json>, lines: Json) {
    && (forall i :: 0 <= i < |banks| ==> BankOk(banks[i], lines))
    && AllDiffer(BankNames(banks))
    && AllDiffer(Offsets(banks))
  }

  predicate OneOf(v: Json, a: string, b: string) {
    v.Str? && (v.s == a || v.s == b)
  }

  /** A signal on its own: names, a pin, legal direction, level and safe default. */
  predicate SignalShape(s: Json) {
    && s.Obj?
    && NonEmptyStr(Get(s.fields, "logical_name"))
    && NonEmptyStr(Get(s.fields, "bank"))
    && NonNegInt(Get(s.fields, "pin"))
    && OneOf(Get(s.fields, "direction"), "in", "out")
    && OneOf(Get(s.fields, "active_level"), "high", "low")
    && "safe_default" in s.fields
    && var d := s.fields["safe_default"];
       && (d.Null? || (d.Int? && (d.n == 0 || d.n == 1)))
       && (Get(s.fields, "direction") == Str("in") ==> d.Null?)
  }

  /** Its pin exists in the named bank and is not reserved there. */
  predicate PinOk(s: Json, banks: map<string, Json>)
    requires SignalShape(s)
  {
    var name, pin := Get(s.fields, "bank").s, Get(s.fields, "pin").n;
    && name in banks && banks[name].Obj?
    && var b := banks[name].fields;
       && (PyInt(Get(b, "ngpios")) ==> pin < PyValue(Get(b, "ngpios")))
       && !Reserved(b, pin)
  }

  predicate Reserved(b: JsonMap, pin: int) {
    && Get(b, "reserved_pins").List?
    && var pins := Get(b, "reserved_pins").items;
       exists j :: 0 <= j < |pins| && EqualsInt(pins[j], pin)
  }

  predicate SignalOk(s: Json, banks: map<string, Json>) {
    SignalShape(s) && PinOk(s, banks)
  }

  function SignalName(s: Json): string {
    if s.Obj? && Get(s.fields, "logical_name").Str? then Get(s.fields, "logical_name").s else ""
  }

  /** The (bank, pin) a signal claims. */
  function Owner(s: Json): (string, int) {
    if s.Obj? && Get(s.fields, "bank").Str? && Get(s.fields, "pin").Int?
    then (Get(s.fields, "bank").s, Get(s.fields, "pin").n)
    else ("", -1)
  }

  function SignalNames(signals: seq<Json>): (r: seq<string>) {
    seq(|signals|, i requires 0 <= i < |signals| => SignalName(signals[i]))
  }

  function Owners(signals: seq<Json>): (r: seq<(string, int)>) {
    seq(|signals|, i requires 0 <= i < |signals| => Owner(signals[i]))
  }

  ghost predicate SignalsOk(signals: seq<Json>, banks: map<string, Json>) {
    && (forall i :: 0 <= i < |signals| ==> SignalOk(signals[i], banks))
    && AllDiffer(SignalNames(signals))
    && AllDiffer(Owners(signals))
  }

  /** Banks by name; a later bank of the same name wins. */
  function ByName(banks: seq<Json>): map<string, Json> {
    if banks == [] then map[]
    else
      var b := banks[|banks| - 1];
      if BankName(b) == "" then ByName(banks[..|banks| - 1]) else ByName(banks[..|banks| - 1])[BankName(b) := b]
  }

  ghost predicate WellFormed(m: JsonMap, hex: HexParser) {
    && NonEmptyStr(Get(m, "board"))
    && Get(m, "controller").Obj? && ControllerOk(Get(m, "controller").fields, hex)
    && Get(m, "banks").List? && Get(m, "banks").items != []
    && BanksOk(Get(m, "banks").items, Get(Get(m, "controller").fields, "ngpios"))
    && Get(m, "signals").List?
    && SignalsOk(Get(m, "signals").items, ByName(Get(m, "banks").items))
  }

  // ---- the checks, in the tool's order ----

  method CheckController(c: JsonMap, hex: HexParser) returns (errors: seq<Issue>)
    ensures errors == [] <==> ControllerOk(c, hex)
  {
    errors := [];
    var required := ["name", "base_addr", "bus_frequency_hz", "ngpios", "enabled"];
    for i := 0 to |required|
      invariant errors == [] <==> forall k :: 0 <= k < i ==> required[k] in c
    {
      if required[i] !in c {
        errors := errors + [Issue("controller field required", i)];
      }
    }
    ghost var present := errors == [];
    assert present ==> required[0] in c && required[1] in c && required[2] in c && required[3] in c && required[4] in c;
    assert ControllerOk(c, hex) ==> present;
    if "name" in c && !c["name"].Str? {
      errors := errors + [Issue("controller.name", 0)];
    }
    if "base_addr" in c {
      var v := c["base_addr"];
      if !((v.Str? && hex(v.s).Some?) || NonNegInt(v)) {
        errors := errors + [Issue("controller.base_addr", 0)];
      } else if (if v.Str? then hex(v.s).value else v.n) > U32_MAX {
        errors := errors + [Issue("controller.base_addr range", 0)];
      }
    }
    if "bus_frequency_hz" in c {
      var v := c["bus_frequency_hz"];
      if !NonNegInt(v) {
        errors := errors + [Issue("controller.bus_frequency_hz", 0)];
      } else if v.n > U32_MAX {
        errors := errors + [Issue("controller.bus_frequency_hz range", 0)];
      }
    }
    if "ngpios" in c && (!NonNegInt(c["ngpios"]) || c["ngpios"].n == 0 || c["ngpios"].n > 128) {
      errors := errors + [Issue("controller.ngpios", 0)];
    }
    if "enabled" in c && !c["enabled"].Bool? {
      errors := errors + [Issue("controller.enabled", 0)];
    }
  }

  /** The reserved pins of a bank. */
  method CheckReserved(pins: seq<Json>, ngpios: Json, at: nat) returns (errors: seq<Issue>)
    ensures errors == [] <==> ReservedOk(pins, ngpios)
  {
    errors := [];
    for j := 0 to |pins|
      invariant errors == [] <==> ReservedOk(pins[..j], ngpios)
    {
      assert pins[..j + 1] == pins[..j] + [pins[j]];
      if !NonNegInt(pins[j]) {
        errors := errors + [Issue("reserved pin", at)];
      } else if PyInt(ngpios) && pins[j].n >= PyValue(ngpios) {
        errors := errors + [Issue("reserved pin out of range", at)];
      }
    }
    assert pins[..|pins|] == pins;
  }

  /** One bank, given the names and offsets seen before it. */
  method CheckBank(b: Json, at: nat, lines: Json, seenNames: set<string>, seenOffsets: set<int>)
    returns (errors: seq<Issue>)
    ensures errors == [] <==> BankOk(b, lines) && BankName(b) !in seenNames && Offset(b) !in seenOffsets
  {
    if !b.Obj? {
      return [Issue("bank must be object", at)];
    }
    errors := [];
    var f := b.fields;
    if "name" !in f || "pin_offset" !in f || "ngpios" !in f || "reserved_pins" !in f {
      errors := errors + [Issue("bank field required", at)];
    }
    var name := Get(f, "name");
    if !NonEmptyStr(name) {
      errors := errors + [Issue("bank name", at)];
    } else if name.s in seenNames {
      errors := errors + [Issue("duplicate bank name", at)];
    }
    var offset := Get(f, "pin_offset");
    if !NonNegInt(offset) {
      errors := errors + [Issue("pin_offset", at)];
    } else if !Boundary(offset.n) {
      errors := errors + [Issue("pin_offset boundary", at)];
    } else if offset.n in seenOffsets {
      errors := errors + [Issue("duplicate pin_offset", at)];
    }
    var ngpios := Get(f, "ngpios");
    if !NonNegInt(ngpios) || ngpios.n == 0 || ngpios.n > 32 {
      errors := errors + [Issue("bank ngpios", at)];
    } else if NonNegInt(offset) && PyInt(lines) && offset.n + ngpios.n > PyValue(lines) {
      errors := errors + [Issue("bank exceeds controller", at)];
    }
    var reserved := Get(f, "reserved_pins");
    if !reserved.List? {
      errors := errors + [Issue("reserved_pins", at)];
    } else {
      var more := CheckReserved(reserved.items, ngpios, at);
      errors := errors + more;
    }
  }

  /** Sizes that count towards the sum of banks. */
  function Counted(b: Json): nat {
    if b.Obj? && NonNegInt(Get(b.fields, "ngpios")) && 1 <= Get(b.fields, "ngpios").n <= 32
    then Get(b.fields, "ngpios").n
    else 0
  }

  function SumOfBanks(banks: seq<Json>): nat {
    if banks == [] then 0 else SumOfBanks(banks[..|banks| - 1]) + Counted(banks[|banks| - 1])
  }

  ghost predicate HoldsExactly<T(!new)>(seen: set<T>, xs: seq<T>) {
    forall x :: x in seen <==> x in xs
  }

  /** A set of the elements met so far decides whether the next one repeats. */
  lemma {:induction false} DifferGrow<T(!new)>(xs: seq<T>, x: T, seen: set<T>)
    requires AllDiffer(xs) && HoldsExactly(seen, xs)
    ensures AllDiffer(xs + [x]) <==> x !in seen
    ensures HoldsExactly(seen + {x}, xs + [x])
  {
    var more := xs + [x];
    assert more[|xs|] == x;
    if x in seen {
      var i :| 0 <= i < |xs| && xs[i] == x;
      assert more[i] == more[|xs|];
    }
  }

  /** What being well formed says about a bank's place on the bus. */
  lemma {:induction false} BankSpan(b: Json, lines: Json)
    requires BankOk(b, lines)
    ensures BankName(b) != "" && Boundary(Offset(b)) && 1 <= Size(b) <= 32 && Counted(b) == Size(b)
    ensures PyInt(lines) ==> Offset(b) + Size(b) <= PyValue(lines)
  {}

  lemma {:induction false} BanksGrow(banks: seq<Json>, b: Json, lines: Json, names: set<string>, offsets: set<int>)
    requires BanksOk(banks, lines)
    requires HoldsExactly(names, BankNames(banks)) && HoldsExactly(offsets, Offsets(banks))
    ensures BanksOk(banks + [b], lines) <==> BankOk(b, lines) && BankName(b) !in names && Offset(b) !in offsets
    ensures HoldsExactly(names + {BankName(b)}, BankNames(banks + [b]))
    ensures HoldsExactly(offsets + {Offset(b)}, Offsets(banks + [b]))
  {
    assert BankNames(banks + [b]) == BankNames(banks) + [BankName(b)];
    assert Offsets(banks + [b]) == Offsets(banks) + [Offset(b)];
    DifferGrow(BankNames(banks), BankName(b), names);
    DifferGrow(Offsets(banks), Offset(b), offsets);
    assert (banks + [b])[|banks|] == b;
  }

  lemma {:induction false} BanksOkPrefix(banks: seq<Json>, lines: Json, n: nat)
    requires n <= |banks| && BanksOk(banks, lines)
    ensures BanksOk(banks[..n], lines)
  {
    assert BankNames(banks[..n]) == BankNames(banks)[..n];
    assert Offsets(banks[..n]) == Offsets(banks)[..n];
  }

  /** The name map and the running sum after one more bank. */
  lemma {:induction false} OneMoreBank(banks: seq<Json>, i: nat)
    requires i < |banks|
    ensures banks[..i + 1] == banks[..i] + [banks[i]]
    ensures SumOfBanks(banks[..i + 1]) == SumOfBanks(banks[..i]) + Counted(banks[i])
    ensures var name := BankName(banks[i]);
            ByName(banks[..i + 1]) == if name == "" then ByName(banks[..i]) else ByName(banks[..i])[name := banks[i]]
  {
    assert banks[..i + 1][..i] == banks[..i];
  }

  /** All banks, then the sum check. The sum check never fires alone. */
  method CheckBanks(banks: seq<Json>, lines: Json) returns (errors: seq<Issue>, byName: map<string, Json>)
    requires banks != []
    ensures errors == [] <==> BanksOk(banks, lines)
    ensures byName == ByName(banks)
  {
    errors, byName := [], map[];
    var names: set<string>, offsets: set<int>, total: nat := {}, {}, 0;
    for i := 0 to |banks|
      invariant errors == [] <==> BanksOk(banks[..i], lines)
      invariant byName == ByName(banks[..i]) && total == SumOfBanks(banks[..i])
      invariant errors == [] ==> HoldsExactly(names, BankNames(banks[..i]))
      invariant errors == [] ==> HoldsExactly(offsets, Offsets(banks[..i]))
    {
      var b := banks[i];
      OneMoreBank(banks, i);
      if errors == [] {
        BanksGrow(banks[..i], b, lines, names, offsets);
        if BankOk(b, lines) { BankSpan(b, lines); }
      } else if BanksOk(banks[..i + 1], lines) {
        BanksOkPrefix(banks[..i + 1], lines, i);
      }
      var more := CheckBank(b, i, lines, names, offsets);
      errors := errors + more;
      if BankName(b) != "" {
        names := names + {BankName(b)};
        byName := byName[BankName(b) := b];
      }
      if Boundary(Offset(b)) {
        offsets := offsets + {Offset(b)};
      }
      total := total + Counted(b);
    }
    assert banks[..|banks|] == banks;
    if PyInt(lines) && total > PyValue(lines) {
      if BanksOk(banks, lines) {
        SumFits(banks, lines);
      }
      errors := errors + [Issue("sum of banks", 0)];
    }
  }

  // ---- why the sum check is redundant: banks are disjoint intervals ----

  ghost function Interval(lo: int, n: nat): (r: set<int>)
    ensures |r| == n && forall x :: x in r <==> lo <= x < lo + n
  {
    if n == 0 then {} else Interval(lo, n - 1) + {lo + n - 1}
  }

  /** The lines a bank covers. */
  ghost function Lines(b: Json): set<int> {
    Interval(Offset(b), if Size(b) < 0 then 0 else Size(b))
  }

  ghost function AllLines(banks: seq<Json>): set<int> {
    if banks == [] then {} else AllLines(banks[..|banks| - 1]) + Lines(banks[|banks| - 1])
  }

  lemma {:induction false} SubsetSize(a: set<int>, b: set<int>)
    requires a <= b
    ensures |a| <= |b|
  {
    assert b == a + (b - a);
  }

  lemma {:induction false} LinesComeFromBanks(banks: seq<Json>, x: int)
    requires x in AllLines(banks)
    ensures exists i :: 0 <= i < |banks| && x in Lines(banks[i])
  {
    var n := |banks| - 1;
    if x in AllLines(banks[..n]) {
      LinesComeFromBanks(banks[..n], x);
      var i :| 0 <= i < n && x in Lines(banks[..n][i]);
      assert x in Lines(banks[i]);
    } else {
      assert x in Lines(banks[n]);
    }
  }

  /** Lines of distinct well-formed banks never meet: both start on a 32-pin boundary. */
  lemma {:induction false} BanksDisjoint(a: Json, b: Json, lines: Json, x: int)
    requires BankOk(a, lines) && BankOk(b, lines) && Offset(a) != Offset(b)
    ensures !(x in Lines(a) && x in Lines(b))
  {
    BankSpan(a, lines);
    BankSpan(b, lines);
  }

  /** Every line is counted once. */
  lemma {:induction false} LinesCount(banks: seq<Json>, lines: Json)
    requires BanksOk(banks, lines)
    ensures |AllLines(banks)| == SumOfBanks(banks)
  {
    if banks != [] {
      var n := |banks| - 1;
      var init, b := banks[..n], banks[n];
      BanksOkPrefix(banks, lines, n);
      LinesCount(init, lines);
      BankSpan(b, lines);
      forall x | x in AllLines(init) ensures x !in Lines(b) {
        LinesComeFromBanks(init, x);
        var i :| 0 <= i < n && x in Lines(init[i]);
        assert init[i] == banks[i] && Offsets(banks)[i] != Offsets(banks)[n];
        BanksDisjoint(banks[i], b, lines, x);
      }
      assert AllLines(init) !! Lines(b);
    }
  }

  /** Well-formed banks fit the controller: their sizes add up to at most its lines. */
  lemma {:induction false} SumFits(banks: seq<Json>, lines: Json)
    requires BanksOk(banks, lines) && PyInt(lines) && banks != []
    ensures SumOfBanks(banks) <= PyValue(lines)
  {
    LinesCount(banks, lines);
    BankSpan(banks[0], lines);
    forall x | x in AllLines(banks) ensures 0 <= x < PyValue(lines) {
      LinesComeFromBanks(banks, x);
      var i :| 0 <= i < |banks| && x in Lines(banks[i]);
      BankSpan(banks[i], lines);
    }
    SubsetSize(AllLines(banks), Interval(0, PyValue(lines)));
  }

  // ---- signals ----

  /** One signal, given the names and (bank, pin) pairs claimed before it. */
  method CheckSignal(s: Json, at: nat, banks: map<string, Json>, seenNames: set<string>, owners: set<(string, int)>)
    returns (errors: seq<Issue>)
    requires forall n :: n in banks ==> banks[n].Obj?
    ensures errors == [] <==> SignalOk(s, banks) && SignalName(s) !in seenNames && Owner(s) !in owners
  {
    if !s.Obj? {
      return [Issue("signal must be object", at)];
    }
    errors := [];
    var f := s.fields;
    if "logical_name" !in f || "bank" !in f || "pin" !in f
       || "direction" !in f || "active_level" !in f || "safe_default" !in f
    {
      errors := errors + [Issue("signal field required", at)];
    }
    var name := Get(f, "logical_name");
    if !NonEmptyStr(name) {
      errors := errors + [Issue("logical_name", at)];
    } else if name.s in seenNames {
      errors := errors + [Issue("duplicate logical name", at)];
    }
    if !NonEmptyStr(Get(f, "bank")) {
      return errors + [Issue("signal bank", at)];
    }
    if !NonNegInt(Get(f, "pin")) {
      return errors + [Issue("signal pin", at)];
    }
    var more := CheckPlacement(f, at, banks, owners);
    errors := errors + more;
  }

  /** Direction, level, default and pin of a signal whose bank and pin are readable. */
  method CheckPlacement(f: JsonMap, at: nat, banks: map<string, Json>, owners: set<(string, int)>)
    returns (errors: seq<Issue>)
    requires NonEmptyStr(Get(f, "bank")) && NonNegInt(Get(f, "pin"))
    requires forall n :: n in banks ==> banks[n].Obj?
    ensures "safe_default" in f && NonEmptyStr(Get(f, "logical_name")) ==>
              (errors == [] <==> SignalOk(Obj(f), banks) && Owner(Obj(f)) !in owners)
  {
    errors := [];
    var bankName, pin := Get(f, "bank").s, Get(f, "pin").n;
    var direction, d := Get(f, "direction"), Get(f, "safe_default");
    if !OneOf(direction, "in", "out") {
      errors := errors + [Issue("direction", at)];
    }
    if !OneOf(Get(f, "active_level"), "high", "low") {
      errors := errors + [Issue("active_level", at)];
    }
    if !(d.Null? || (d.Int? && (d.n == 0 || d.n == 1))) {
      errors := errors + [Issue("safe_default", at)];
    }
    if bankName !in banks {
      return errors + [Issue("unknown bank", at)];
    }
    var b := banks[bankName].fields;
    if PyInt(Get(b, "ngpios")) && pin >= PyValue(Get(b, "ngpios")) {
      errors := errors + [Issue("pin out of range", at)];
    }
    if Reserved(b, pin) {
      errors := errors + [Issue("pin reserved", at)];
    }
    if (bankName, pin) in owners {
      errors := errors + [Issue("pin already owned", at)];
    }
    if direction == Str("in") && !d.Null? {
      errors := errors + [Issue("input safe_default", at)];
    }
  }

  lemma {:induction false} SignalsGrow(signals: seq<Json>, s: Json, banks: map<string, Json>, names: set<string>,
                                       owners: set<(string, int)>)
    requires SignalsOk(signals, banks)
    requires HoldsExactly(names, SignalNames(signals)) && HoldsExactly(owners, Owners(signals))
    ensures SignalsOk(signals + [s], banks) <==> SignalOk(s, banks) && SignalName(s) !in names && Owner(s) !in owners
    ensures HoldsExactly(names + {SignalName(s)}, SignalNames(signals + [s]))
    ensures HoldsExactly(owners + {Owner(s)}, Owners(signals + [s]))
  {
    assert SignalNames(signals + [s]) == SignalNames(signals) + [SignalName(s)];
    assert Owners(signals + [s]) == Owners(signals) + [Owner(s)];
    DifferGrow(SignalNames(signals), SignalName(s), names);
    DifferGrow(Owners(signals), Owner(s), owners);
    assert (signals + [s])[|signals|] == s;
  }

  lemma {:induction false} SignalsOkPrefix(signals: seq<Json>, banks: map<string, Json>, n: nat)
    requires n <= |signals| && SignalsOk(signals, banks)
    ensures SignalsOk(signals[..n], banks)
  {
    assert forall i :: 0 <= i < n ==> SignalNames(signals[..n])[i] == SignalNames(signals)[i];
    assert forall i :: 0 <= i < n ==> Owners(signals[..n])[i] == Owners(signals)[i];
  }

  /** The bank and pin are readable and the bank is known. */
  predicate Placed(s: Json, banks: map<string, Json>) {
    && s.Obj? && NonEmptyStr(Get(s.fields, "bank")) && NonNegInt(Get(s.fields, "pin"))
    && Get(s.fields, "bank").s in banks
  }

  method CheckSignals(signals: seq<Json>, banks: map<string, Json>) returns (errors: seq<Issue>)
    requires forall n :: n in banks ==> banks[n].Obj?
    ensures errors == [] <==> SignalsOk(signals, banks)
  {
    errors := [];
    var names: set<string>, owners: set<(string, int)> := {}, {};
    for i := 0 to |signals|
      invariant errors == [] <==> SignalsOk(signals[..i], banks)
      invariant errors == [] ==> HoldsExactly(names, SignalNames(signals[..i]))
      invariant errors == [] ==> HoldsExactly(owners, Owners(signals[..i]))
    {
      var s := signals[i];
      assert signals[..i + 1] == signals[..i] + [s] && signals[..i + 1][..i] == signals[..i];
      if errors == [] {
        SignalsGrow(signals[..i], s, banks, names, owners);
      } else if SignalsOk(signals[..i + 1], banks) {
        SignalsOkPrefix(signals[..i + 1], banks, i);
      }
      var more := CheckSignal(s, i, banks, names, owners);
      errors := errors + more;
      if SignalName(s) != "" {
        names := names + {SignalName(s)};
      }
      if Placed(s, banks) {
        owners := owners + {Owner(s)};
      }
    }
    assert signals[..|signals|] == signals;
  }

  lemma {:induction false} ByNameHoldsObjects(banks: seq<Json>)
    ensures forall n :: n in ByName(banks) ==> ByName(banks)[n].Obj?
  {
    if banks != [] { ByNameHoldsObjects(banks[..|banks| - 1]); }
  }

  /** The validator accepts exactly the well-formed manifests. */
  method ValidateManifest(m: JsonMap, hex: HexParser) returns (errors: seq<Issue>)
    ensures errors == [] <==> WellFormed(m, hex)
  {
    errors := [];
    if !NonEmptyStr(Get(m, "board")) {
      errors := errors + [Issue("board", 0)];
    }
    var controller := Get(m, "controller");
    if !controller.Obj? {
      return errors + [Issue("controller", 0)];
    }
    var more := CheckController(controller.fields, hex);
    errors := errors + more;
    var banks := Get(m, "banks");
    if !banks.List? || banks.items == [] {
      return errors + [Issue("banks", 0)];
    }
    var byName;
    more, byName := CheckBanks(banks.items, Get(controller.fields, "ngpios"));
    errors := errors + more;
    var signals := Get(m, "signals");
    if !signals.List? {
      return errors + [Issue("signals", 0)];
    }
    ByNameHoldsObjects(banks.items);
    more := CheckSignals(signals.items, byName);
    errors := errors + more;
  }

  // ---- what an accepted manifest guarantees ----

  /** The physical line of a signal. */
  function Line(s: Json, banks: map<string, Json>): int
    requires SignalOk(s, banks)
  {
    Offset(banks[Owner(s).0]) + Owner(s).1
  }

  lemma {:induction false} ByNameFinds(banks: seq<Json>, n: string)
    requires n in ByName(banks)
    ensures exists i :: 0 <= i < |banks| && banks[i] == ByName(banks)[n] && BankName(banks[i]) == n
  {
    var k := |banks| - 1;
    if BankName(banks[k]) == n && n != "" {
      assert banks[k] == ByName(banks)[n];
    } else {
      ByNameFinds(banks[..k], n);
      var i :| 0 <= i < k && banks[..k][i] == ByName(banks[..k])[n] && BankName(banks[..k][i]) == n;
      assert banks[i] == ByName(banks)[n];
    }
  }

  /** The signal's bank is one of the manifest's, and its line lies in that bank's range. */
  lemma {:induction false} SignalInBank(banks: seq<Json>, lines: Json, s: Json) returns (i: nat)
    requires BanksOk(banks, lines) && SignalOk(s, ByName(banks))
    ensures i < |banks| && banks[i] == ByName(banks)[Owner(s).0] && BankName(banks[i]) == Owner(s).0
    ensures 0 <= Owner(s).1 < Size(banks[i])
    ensures Line(s, ByName(banks)) in Lines(banks[i])
  {
    ByNameFinds(banks, Owner(s).0);
    i :| 0 <= i < |banks| && banks[i] == ByName(banks)[Owner(s).0] && BankName(banks[i]) == Owner(s).0;
    BankSpan(banks[i], lines);
  }

  lemma {:induction false} BanksApart(banks: seq<Json>, lines: Json, i: nat, j: nat, line: int)
    requires BanksOk(banks, lines) && i < |banks| && j < |banks| && i != j
    ensures BankOk(banks[i], lines) && BankOk(banks[j], lines)
    ensures !(line in Lines(banks[i]) && line in Lines(banks[j]))
  {
    assert Offsets(banks)[i] != Offsets(banks)[j];
    BanksDisjoint(banks[i], banks[j], lines, line);
  }

  lemma {:induction false} LinesDiffer(banks: seq<Json>, lines: Json, s: Json, t: Json)
    requires BanksOk(banks, lines) && SignalOk(s, ByName(banks)) && SignalOk(t, ByName(banks))
    requires Owner(s) != Owner(t)
    ensures Line(s, ByName(banks)) != Line(t, ByName(banks))
  {
    var i := SignalInBank(banks, lines, s);
    var j := SignalInBank(banks, lines, t);
    if i != j {
      BanksApart(banks, lines, i, j, Line(s, ByName(banks)));
    }
  }

  /** An accepted manifest gives distinct signals distinct physical lines. */
  lemma {:induction false} AcceptedLinesDistinct(m: JsonMap, hex: HexParser, x: nat, y: nat)
    requires WellFormed(m, hex) && x < y < |Get(m, "signals").items|
    ensures var banks := ByName(Get(m, "banks").items);
            Line(Get(m, "signals").items[x], banks) != Line(Get(m, "signals").items[y], banks)
  {
    var signals := Get(m, "signals").items;
    assert Owners(signals)[x] != Owners(signals)[y];
    LinesDiffer(Get(m, "banks").items, Get(Get(m, "controller").fields, "ngpios"), signals[x], signals[y]);
  }

  /** Every line of an accepted manifest is on the controller, and below 128. */
  lemma {:induction false} AcceptedLinesInRange(m: JsonMap, hex: HexParser, x: nat)
    requires WellFormed(m, hex) && x < |Get(m, "signals").items|
    ensures var line := Line(Get(m, "signals").items[x], ByName(Get(m, "banks").items));
            0 <= line < Get(Get(m, "controller").fields, "ngpios").n <= 128
  {
    var banks, lines := Get(m, "banks").items, Get(Get(m, "controller").fields, "ngpios");
    var i := SignalInBank(banks, lines, Get(m, "signals").items[x]);
    BankSpan(banks[i], lines);
  }

  /** No line of an accepted manifest is a reserved pin of any bank. */
  lemma {:induction false} AcceptedLinesNotReserved(m: JsonMap, hex: HexParser, x: nat, b: nat, r: nat)
    requires WellFormed(m, hex) && x < |Get(m, "signals").items| && b < |Get(m, "banks").items|
    requires r < |Get(Get(m, "banks").items[b].fields, "reserved_pins").items|
    ensures var banks := Get(m, "banks").items;
            Line(Get(m, "signals").items[x], ByName(banks))
            != Offset(banks[b]) + Get(banks[b].fields, "reserved_pins").items[r].n
  {
    var banks, lines := Get(m, "banks").items, Get(Get(m, "controller").fields, "ngpios");
    LineNotReserved(banks, lines, Get(m, "signals").items[x], b, r);
  }

  lemma {:induction false} LineNotReserved(banks: seq<Json>, lines: Json, s: Json, b: nat, r: nat)
    requires BanksOk(banks, lines) && SignalOk(s, ByName(banks)) && b < |banks|
    requires r < |Get(banks[b].fields, "reserved_pins").items|
    ensures Line(s, ByName(banks)) != Offset(banks[b]) + Get(banks[b].fields, "reserved_pins").items[r].n
  {
    var i := SignalInBank(banks, lines, s);
    BankSpan(banks[b], lines);
    var pin := Get(banks[b].fields, "reserved_pins").items[r];
    assert NonNegInt(pin) && pin.n < Size(banks[b]);
    if i == b {
      assert EqualsInt(pin, pin.n);
      assert !Reserved(banks[b].fields, Owner(s).1);
    } else {
      BanksApart(banks, lines, i, b, Offset(banks[b]) + pin.n);
    }
  }
}
