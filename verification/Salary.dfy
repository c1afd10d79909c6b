/**
 Salary breakup: structure rows and per-employee overrides become rules, the rules fix the annual
 basic, and the basic fixes the lines and totals. Amounts are exact decimals; rounding is explicit.
 */
module Salary {
  import opened Multisets
  import opened Names
  import opened Outcomes
  import opened Text

  datatype Component = Component(code: string, kind: string)

  datatype StructureRow = StructureRow(component: int, basis: string, value: Option<real>, percentage: Option<real>,
    amount: Option<real>)

  datatype Override = Override(basis: string, value: real)

  datatype Basis = FixedAnnual | FixedMonthly | PercentOfCtc | PercentOfBasic

  datatype Rule = Rule(code: string, basis: string, value: real)

  datatype Line = Line(component: int, code: string, kind: string, basis: Basis, value: real, annual: real,
    monthly: real, isOverride: bool)

  datatype Breakup = Breakup(gross: real, deductions: real, net: real, lines: seq<Line>)

  datatype Problem = NoComponents | BadBasis | BasicOfBasic

  // ---------------------------------------------------------------- rounding

  /** Two decimal places, halves to the even neighbour. */
  function Round2(x: real): real {
    var cents := (x * 100.0).Floor;
    var part := x * 100.0 - cents as real;
    (if part > 0.5 || (part == 0.5 && cents % 2 == 1) then cents + 1 else cents) as real / 100.0
  }

  predicate CentsOf(x: real, cents: int) {
    x == cents as real / 100.0
  }

  ghost predicate WholeCents(x: real) {
    exists cents :: CentsOf(x, cents)
  }

  lemma RoundIsClose(x: real)
    ensures -0.005 <= Round2(x) - x <= 0.005 && WholeCents(Round2(x))
    ensures WholeCents(x) ==> Round2(x) == x
  {
    var cents := (x * 100.0).Floor;
    assert CentsOf(Round2(x), cents) || CentsOf(Round2(x), cents + 1);
    if n :| CentsOf(x, n) {
      assert x * 100.0 == n as real;
    }
  }

  lemma CentsAdd(x: real, y: real)
    requires WholeCents(x) && WholeCents(y)
    ensures WholeCents(x + y) && WholeCents(x - y)
  {
    var a :| CentsOf(x, a);
    var b :| CentsOf(y, b);
    assert CentsOf(x + y, a + b) && CentsOf(x - y, a - b);
  }

  // ---------------------------------------------------------------- rules

  const BASES := map[
    "FIXED_ANNUAL" := FixedAnnual, "FIXED_MONTHLY" := FixedMonthly,
    "PERCENT_OF_CTC" := PercentOfCtc, "PERCENT_OF_BASIC" := PercentOfBasic]

  function Normalized(basis: string): Option<Basis> {
    var b := ToUpper(Trim(basis));
    if b in BASES then Some(BASES[b]) else None
  }

  function AmountFromRule(basis: Basis, value: real, ctc: real, basic: real): real {
    match basis
    case FixedAnnual => value
    case FixedMonthly => value * 12.0
    case PercentOfCtc => Round2(ctc * value / 100.0)
    case PercentOfBasic => Round2(basic * value / 100.0)
  }

  function RowValue(row: StructureRow): real {
    if row.value.Some? then row.value.value
    else if row.percentage.Some? then row.percentage.value
    else if row.amount.Some? then row.amount.value
    else 0.0
  }

  function Find(rules: seq<Rule>, code: string): Option<Rule> {
    if rules == [] then None
    else if SameIgnoringCase(rules[0].code, code) then Some(rules[0])
    else Find(rules[1..], code)
  }

  /** The rule that defines basic: the wanted code, or else BASIC. */
  function BasicRule(rules: seq<Rule>, baseCode: string): Option<Rule> {
    var wanted := Find(rules, ToUpper(Trim(baseCode)));
    if wanted.Some? then wanted else Find(rules, "BASIC")
  }

  function ResolveBasic(rules: seq<Rule>, ctc: real, baseCode: string, fallback: real): Result<real, Problem> {
    match BasicRule(rules, baseCode)
    case None => Ok(if fallback > 0.0 then fallback else ctc)
    case Some(rule) =>
      match Normalized(rule.basis)
      case None => Err(BadBasis)
      case Some(basis) => if basis.PercentOfBasic? then Err(BasicOfBasic)
        else Ok(AmountFromRule(basis, rule.value, ctc, 0.0))
  }

  // ---------------------------------------------------------------- where rules and lines come from

  datatype Source = Source(component: int, code: string, kind: string, basis: string, value: real, isOverride: bool)

  /** Structure rows of active components, in display order. */
  function Joined(structure: seq<StructureRow>, active: map<int, Component>): (rows: seq<StructureRow>)
    ensures forall i :: 0 <= i < |rows| ==> rows[i].component in active
  {
    if structure == [] then []
    else (if structure[0].component in active then [structure[0]] else []) + Joined(structure[1..], active)
  }

  function RowSource(row: StructureRow, active: map<int, Component>, overrides: map<int, Override>): Source {
    var c := if row.component in active then active[row.component] else Component("", "");
    if row.component in overrides then
      Source(row.component, c.code, c.kind, overrides[row.component].basis, overrides[row.component].value, true)
    else Source(row.component, c.code, c.kind, row.basis, RowValue(row), false)
  }

  predicate Listed(rows: seq<StructureRow>, id: int) {
    exists i :: 0 <= i < |rows| && rows[i].component == id
  }

  function ExtraSource(id: int, active: map<int, Component>, overrides: map<int, Override>): Source {
    var c := if id in active then active[id] else Component("", "");
    var o := if id in overrides then overrides[id] else Override("", 0.0);
    Source(id, c.code, c.kind, o.basis, o.value, true)
  }

  predicate Extra(rows: seq<StructureRow>, active: map<int, Component>, id: int) {
    id in active && !Listed(rows, id)
  }

  /** Overridden active components that the structure does not list, in the order of `ids`. */
  function Extras(ids: seq<int>, rows: seq<StructureRow>, active: map<int, Component>): seq<int> {
    if ids == [] then []
    else (if Extra(rows, active, ids[0]) then [ids[0]] else []) + Extras(ids[1..], rows, active)
  }

  function Sources(
      rows: seq<StructureRow>, ids: seq<int>, active: map<int, Component>,
      overrides: map<int, Override>): seq<Source> {
    Map(row => RowSource(row, active, overrides), rows)
    + Map(id => ExtraSource(id, active, overrides), Extras(ids, rows, active))
  }

  function AsRule(s: Source): Rule {
    Rule(s.code, s.basis, s.value)
  }

  function AsLine(s: Source, ctc: real, basic: real): Line {
    var basis := if Normalized(s.basis).Some? then Normalized(s.basis).value else FixedAnnual;
    var annual := Round2(AmountFromRule(basis, s.value, ctc, basic));
    Line(s.component, s.code, s.kind, basis, s.value, annual, Round2(annual / 12.0), s.isOverride)
  }

  function LinesOf(sources: seq<Source>, ctc: real, basic: real): (lines: seq<Line>)
    ensures |lines| == |sources| && forall i :: 0 <= i < |lines| ==> lines[i] == AsLine(sources[i], ctc, basic)
  {
    seq(|sources|, i requires 0 <= i < |sources| => AsLine(sources[i], ctc, basic))
  }

  predicate Computable(s: Source) {
    Normalized(s.basis).Some?
  }

  ghost predicate AllComputable(sources: seq<Source>) {
    forall k :: 0 <= k < |sources| ==> Computable(sources[k])
  }

  // ---------------------------------------------------------------- sorting and totals

  predicate NoLater(a: Line, b: Line) {
    !Before(b.code, a.code)
  }

  ghost predicate SortedByCode(lines: seq<Line>) {
    forall i, j :: 0 <= i < j < |lines| ==> NoLater(lines[i], lines[j])
  }

  function InsertLine(lines: seq<Line>, line: Line): (r: seq<Line>)
    ensures multiset(r) == multiset(lines) + multiset{line}
  {
    if lines == [] then [line]
    else
      assert lines == [lines[0]] + lines[1..];
      if Before(line.code, lines[0].code) then [line] + lines else [lines[0]] + InsertLine(lines[1..], line)
  }

  function SortLines(lines: seq<Line>): (r: seq<Line>)
    ensures multiset(r) == multiset(lines)
  {
    if lines == [] then []
    else
      assert lines == lines[..|lines| - 1] + [lines[|lines| - 1]];
      InsertLine(SortLines(lines[..|lines| - 1]), lines[|lines| - 1])
  }

  predicate OfKind(line: Line, kind: string) {
    SameIgnoringCase(line.kind, kind)
  }

  function MonthlyTotal(lines: seq<Line>, kind: string): real {
    if lines == [] then 0.0
    else (if OfKind(lines[0], kind) then lines[0].monthly else 0.0) + MonthlyTotal(lines[1..], kind)
  }

  function AnnualTotal(lines: seq<Line>, kind: string): real {
    if lines == [] then 0.0
    else (if OfKind(lines[0], kind) then lines[0].annual else 0.0) + AnnualTotal(lines[1..], kind)
  }

  function CountOf(lines: seq<Line>, kind: string): nat {
    if lines == [] then 0 else (if OfKind(lines[0], kind) then 1 else 0) + CountOf(lines[1..], kind)
  }

  // ---------------------------------------------------------------- the breakup

  /** The rules of the structure rows, then of the overrides the structure does not list. */
  method CollectRules(
      rows: seq<StructureRow>, queried: seq<int>, active: map<int, Component>, overrides: map<int, Override>)
    returns (rules: seq<Rule>)
    requires forall id :: id in queried ==> id in active && id in overrides
    ensures rules == Map(AsRule, Sources(rows, queried, active, overrides))
  {
    rules := Map(row => AsRule(RowSource(row, active, overrides)), rows);
    var i := 0;
    while i < |queried|
      invariant 0 <= i <= |queried|
      invariant rules == Map(AsRule, Sources(rows, queried[..i], active, overrides))
    {
      var id := queried[i];
      SourcesGrow(rows, queried[..i], id, active, overrides);
      assert queried[..i] + [id] == queried[..i + 1];
      if !Listed(rows, id) {
        rules := rules + [Rule(active[id].code, overrides[id].basis, overrides[id].value)];
      }
      i := i + 1;
    }
    assert queried[..i] == queried;
  }

  predicate LineFor(line: Line, s: Source, ctc: real, basic: real) {
    Computable(s) && line == AsLine(s, ctc, basic)
  }

  lemma LinesFor(lines: seq<Line>, sources: seq<Source>, ctc: real, basic: real)
    requires |lines| == |sources| && forall k :: 0 <= k < |lines| ==> LineFor(lines[k], sources[k], ctc, basic)
    ensures AllComputable(sources) && lines == LinesOf(sources, ctc, basic)
  {
    forall k | 0 <= k < |sources| ensures Computable(sources[k]) {
      assert LineFor(lines[k], sources[k], ctc, basic);
    }
  }

  method ComputeLine(s: Source, ctc: real, basic: real) returns (r: Result<Line, Problem>)
    ensures if r.Ok? then LineFor(r.value, s, ctc, basic) else r.error == BadBasis && !Computable(s)
  {
    var basis := Normalized(s.basis);
    if basis.None? {
      return Err(BadBasis);
    }
    var annual := Round2(AmountFromRule(basis.value, s.value, ctc, basic));
    r := Ok(Line(s.component, s.code, s.kind, basis.value, s.value, annual, Round2(annual / 12.0), s.isOverride));
  }

  /** Lines of the structure rows; fails at the first basis that cannot be normalised. */
  method StructureLines(
      rows: seq<StructureRow>, active: map<int, Component>, overrides: map<int, Override>, ctc: real, basic: real)
    returns (r: Result<seq<Line>, Problem>, seen: set<int>)
    ensures r.Ok? ==> seen == set k | 0 <= k < |rows| :: rows[k].component
    ensures r.Ok? ==> r.value == LinesOf(Sources(rows, [], active, overrides), ctc, basic)
    ensures r.Ok? <==> AllComputable(Sources(rows, [], active, overrides))
    ensures r.Err? ==> r.error == BadBasis
  {
    var sources := Map(row => RowSource(row, active, overrides), rows);
    assert sources == Sources(rows, [], active, overrides);
    var lines := [];
    seen := {};
    var i := 0;
    while i < |rows|
      invariant 0 <= i <= |rows|
      invariant seen == set k | 0 <= k < i :: rows[k].component
      invariant |lines| == i && forall k :: 0 <= k < i ==> LineFor(lines[k], sources[k], ctc, basic)
    {
      var line := ComputeLine(sources[i], ctc, basic);
      if line.Err? {
        return Err(line.error), seen;
      }
      seen := seen + {rows[i].component};
      lines := lines + [line.value];
      i := i + 1;
    }
    LinesFor(lines, sources, ctc, basic);
    r := Ok(lines);
  }

  /** Lines of the remaining overrides, in the order the hash map yields them. */
  method OverrideLines(
      rows: seq<StructureRow>, iterated: seq<int>, seen: set<int>, active: map<int, Component>,
      overrides: map<int, Override>,
      ctc: real, basic: real, structureLines: seq<Line>)
    returns (r: Result<seq<Line>, Problem>)
    requires forall id :: id in iterated ==> id in overrides
    requires seen == set k | 0 <= k < |rows| :: rows[k].component
    requires structureLines == LinesOf(Sources(rows, [], active, overrides), ctc, basic)
    ensures r.Ok? ==> r.value == LinesOf(Sources(rows, iterated, active, overrides), ctc, basic)
    ensures r.Ok? <==>
      forall k :: 0 <= k < |iterated| && Extra(rows, active, iterated[k]) ==>
        Computable(ExtraSource(iterated[k], active, overrides))
    ensures r.Err? ==> r.error == BadBasis
  {
    var lines := structureLines;
    var i := 0;
    while i < |iterated|
      invariant 0 <= i <= |iterated|
      invariant forall k :: 0 <= k < i && Extra(rows, active, iterated[k]) ==>
        Computable(ExtraSource(iterated[k], active, overrides))
      invariant lines == LinesOf(Sources(rows, iterated[..i], active, overrides), ctc, basic)
    {
      var id := iterated[i];
      SourcesGrow(rows, iterated[..i], id, active, overrides);
      assert iterated[..i] + [id] == iterated[..i + 1];
      assert id in seen <==> Listed(rows, id);
      if id !in seen && id in active {
        var line := ComputeLine(ExtraSource(id, active, overrides), ctc, basic);
        if line.Err? {
          return Err(line.error);
        }
        lines := lines + [line.value];
      }
      i := i + 1;
    }
    assert iterated[..i] == iterated;
    r := Ok(lines);
  }

  method BreakupForStructure(
      structure: seq<StructureRow>, active: map<int, Component>, overrides: map<int, Override>,
      queried: seq<int>, iterated: seq<int>, ctc: real, baseCode: string, fallbackMonthly: real)
    returns (r: Result<Breakup, Problem>)
    requires Lists(queried, overrides.Keys * active.Keys) && Lists(iterated, overrides.Keys)
    ensures var sources := Sources(Joined(structure, active), queried, active, overrides);
      var basic := ResolveBasic(Map(AsRule, sources), ctc, baseCode, Round2(fallbackMonthly * 12.0));
      && (r.Ok? <==> structure != [] && basic.Ok? && AllComputable(sources))
      && (r.Ok? ==> Describes(r.value, sources, ctc, basic.value))
      && (r.Err? ==> r.error == if structure == [] then NoComponents else if basic.Err? then basic.error else BadBasis)
  {
    if |structure| == 0 {
      return Err(NoComponents);
    }
    var rows := Joined(structure, active);
    ghost var sources := Sources(rows, queried, active, overrides);
    var rules := CollectRules(rows, queried, active, overrides);
    var resolved := ResolveBasic(rules, ctc, baseCode, Round2(fallbackMonthly * 12.0));
    if resolved.Err? {
      return Err(resolved.error);
    }
    var basic := resolved.value;
    ComputableSources(rows, queried, iterated, active, overrides);
    var lines, seen := StructureLines(rows, active, overrides, ctc, basic);
    if lines.Err? {
      return Err(lines.error);
    }
    lines := OverrideLines(rows, iterated, seen, active, overrides, ctc, basic, lines.value);
    if lines.Err? {
      return Err(lines.error);
    }
    OrderOfOverridesIrrelevant(rows, queried, iterated, active, overrides);
    LinesPermute(sources, Sources(rows, iterated, active, overrides), ctc, basic);
    var breakup := Totals(lines.value, sources, ctc, basic);
    r := Ok(breakup);
  }

  /** Sorting by code, and the totals over the sorted lines. */
  method Totals(lines: seq<Line>, ghost sources: seq<Source>, ctc: real, basic: real) returns (b: Breakup)
    requires multiset(lines) == multiset(LinesOf(sources, ctc, basic))
    ensures Describes(b, sources, ctc, basic)
  {
    var sorted := SortLines(lines);
    SortSorts(lines);
    var gross := MonthlyTotal(sorted, "EARNING");
    var deductions := MonthlyTotal(sorted, "DEDUCTION");
    b := Breakup(Round2(gross), Round2(deductions), Round2(gross - deductions), sorted);
    assert b == BreakupOf(sorted);
    TotalsDescribe(sorted, sources, ctc, basic);
  }

  ghost function BreakupOf(lines: seq<Line>): Breakup {
    var gross, deductions := MonthlyTotal(lines, "EARNING"), MonthlyTotal(lines, "DEDUCTION");
    Breakup(Round2(gross), Round2(deductions), Round2(gross - deductions), lines)
  }

  /** A breakup has one line per source, sorted by code, and totals that are exact sums of its lines. */
  ghost predicate Describes(b: Breakup, sources: seq<Source>, ctc: real, basic: real) {
    && multiset(b.lines) == multiset(LinesOf(sources, ctc, basic))
    && SortedByCode(b.lines)
    && b.gross == MonthlyTotal(b.lines, "EARNING")
    && b.deductions == MonthlyTotal(b.lines, "DEDUCTION")
    && b.net == b.gross - b.deductions
  }

  // ---------------------------------------------------------------- the two orders of the overrides

  lemma {:induction false} ExtrasGrow(ids: seq<int>, id: int, rows: seq<StructureRow>, active: map<int, Component>)
    ensures Extras(ids + [id], rows, active) == Extras(ids, rows, active) + if Extra(rows, active, id) then [id] else []
  {
    if ids == [] {
      assert ids + [id] == [id] && [id][1..] == [];
    } else {
      assert (ids + [id])[1..] == ids[1..] + [id];
      ExtrasGrow(ids[1..], id, rows, active);
    }
  }

  lemma SourcesGrow(
      rows: seq<StructureRow>, ids: seq<int>, id: int, active: map<int, Component>, overrides: map<int, Override>)
    ensures Sources(rows, ids + [id], active, overrides)
         == Sources(rows, ids, active, overrides)
           + if Extra(rows, active, id) then [ExtraSource(id, active, overrides)] else []
  {
    ExtrasGrow(ids, id, rows, active);
    MapConcat(x => ExtraSource(x, active, overrides), Extras(ids, rows, active), [id]);
  }

  lemma {:induction false} ExtrasAre(ids: seq<int>, rows: seq<StructureRow>, active: map<int, Component>)
    ensures forall id :: id in Extras(ids, rows, active) <==> id in ids && Extra(rows, active, id)
    ensures Distinct(ids) ==> Distinct(Extras(ids, rows, active))
  {
    if ids != [] {
      ExtrasAre(ids[1..], rows, active);
      assert ids == [ids[0]] + ids[1..];
    }
  }

  lemma OrderOfOverridesIrrelevant(
      rows: seq<StructureRow>, queried: seq<int>, iterated: seq<int>, active: map<int, Component>,
      overrides: map<int, Override>)
    requires Lists(queried, overrides.Keys * active.Keys) && Lists(iterated, overrides.Keys)
    ensures multiset(Sources(rows, queried, active, overrides)) == multiset(Sources(rows, iterated, active, overrides))
  {
    ExtrasAre(queried, rows, active);
    ExtrasAre(iterated, rows, active);
    forall id ensures id in Extras(queried, rows, active) <==> id in Extras(iterated, rows, active) {
      assert id in queried <==> id in overrides.Keys * active.Keys;
      assert id in iterated <==> id in overrides.Keys;
    }
    SameMembersPermute(Extras(queried, rows, active), Extras(iterated, rows, active));
    MapPermutes(id => ExtraSource(id, active, overrides), Extras(queried, rows, active),
      Extras(iterated, rows, active));
  }

  lemma ComputableSources(
      rows: seq<StructureRow>, queried: seq<int>, iterated: seq<int>, active: map<int, Component>,
      overrides: map<int, Override>)
    requires Lists(queried, overrides.Keys * active.Keys) && Lists(iterated, overrides.Keys)
    ensures AllComputable(Sources(rows, queried, active, overrides)) <==>
              && AllComputable(Sources(rows, [], active, overrides))
              && (forall k :: 0 <= k < |iterated| && Extra(rows, active, iterated[k]) ==>
                    Computable(ExtraSource(iterated[k], active, overrides)))
  {
    var extras := Extras(queried, rows, active);
    var extra := Map(id => ExtraSource(id, active, overrides), extras);
    ExtrasAre(queried, rows, active);
    ComputableConcat(Sources(rows, [], active, overrides), extra);
    assert Sources(rows, queried, active, overrides) == Sources(rows, [], active, overrides) + extra;
    if AllComputable(extra) {
      forall k | 0 <= k < |iterated| && Extra(rows, active, iterated[k])
        ensures Computable(ExtraSource(iterated[k], active, overrides))
      {
        assert iterated[k] in iterated && iterated[k] in overrides.Keys * active.Keys;
        assert iterated[k] in extras;
        var j :| 0 <= j < |extras| && extras[j] == iterated[k];
        assert Computable(extra[j]);
      }
    } else {
      var k :| 0 <= k < |extra| && !Computable(extra[k]);
      assert extras[k] in extras && extras[k] in iterated;
      var j :| 0 <= j < |iterated| && iterated[j] == extras[k];
      assert Extra(rows, active, iterated[j]);
    }
  }

  lemma ComputableConcat(a: seq<Source>, b: seq<Source>)
    ensures AllComputable(a + b) <==> AllComputable(a) && AllComputable(b)
  {
    if AllComputable(a + b) {
      forall k | 0 <= k < |a| ensures Computable(a[k]) { assert Computable((a + b)[k]); }
      forall k | 0 <= k < |b| ensures Computable(b[k]) { assert Computable((a + b)[|a| + k]); }
    }
  }

  // ---------------------------------------------------------------- sorting

  lemma {:induction false} InsertKeepsSorted(lines: seq<Line>, line: Line)
    requires SortedByCode(lines)
    ensures SortedByCode(InsertLine(lines, line))
  {
    if lines != [] {
      var first := lines[0];
      if Before(line.code, first.code) {
        forall k | 0 <= k < |lines| ensures NoLater(line, lines[k]) {
          if Before(lines[k].code, line.code) {
            BeforeTransitive(lines[k].code, line.code, first.code);
            BeforeIrreflexive(first.code);
          }
        }
      } else {
        InsertKeepsSorted(lines[1..], line);
        var rest := InsertLine(lines[1..], line);
        forall k | 0 <= k < |rest| ensures NoLater(first, rest[k]) {
          assert rest[k] in multiset(rest);
        }
      }
    }
  }

  lemma {:induction false} SortSorts(lines: seq<Line>)
    ensures SortedByCode(SortLines(lines))
  {
    if lines != [] {
      SortSorts(lines[..|lines| - 1]);
      InsertKeepsSorted(SortLines(lines[..|lines| - 1]), lines[|lines| - 1]);
    }
  }

  // ---------------------------------------------------------------- totals

  ghost predicate Rounded(line: Line) {
    WholeCents(line.annual) && line.monthly == Round2(line.annual / 12.0)
  }

  lemma AsLineIsRounded(s: Source, ctc: real, basic: real)
    ensures Rounded(AsLine(s, ctc, basic))
  {
    RoundIsClose(AmountFromRule(AsLine(s, ctc, basic).basis, s.value, ctc, basic));
  }

  lemma LinesPermute(a: seq<Source>, b: seq<Source>, ctc: real, basic: real)
    requires multiset(a) == multiset(b)
    ensures multiset(LinesOf(a, ctc, basic)) == multiset(LinesOf(b, ctc, basic))
  {
    var f := s => AsLine(s, ctc, basic);
    MapPermutes(f, a, b);
    assert LinesOf(a, ctc, basic) == Map(f, a) && LinesOf(b, ctc, basic) == Map(f, b);
  }

  lemma LinesAreRounded(lines: seq<Line>, sources: seq<Source>, ctc: real, basic: real)
    requires multiset(lines) == multiset(LinesOf(sources, ctc, basic))
    ensures forall k :: 0 <= k < |lines| ==> Rounded(lines[k])
  {
    var made := LinesOf(sources, ctc, basic);
    forall k | 0 <= k < |lines| ensures Rounded(lines[k]) {
      assert lines[k] in multiset(made);
      var i :| 0 <= i < |made| && made[i] == lines[k];
      AsLineIsRounded(sources[i], ctc, basic);
    }
  }

  lemma {:induction false} TotalsAreCents(lines: seq<Line>, kind: string)
    requires forall k :: 0 <= k < |lines| ==> Rounded(lines[k])
    ensures WholeCents(MonthlyTotal(lines, kind))
  {
    assert CentsOf(0.0, 0);
    if lines != [] {
      assert Rounded(lines[0]);
      TotalsAreCents(lines[1..], kind);
      RoundIsClose(lines[0].annual / 12.0);
      CentsAdd(if OfKind(lines[0], kind) then lines[0].monthly else 0.0, MonthlyTotal(lines[1..], kind));
    }
  }

  lemma CentsKept(x: real, y: real)
    requires WholeCents(x) && WholeCents(y)
    ensures Round2(x) == x && Round2(y) == y && Round2(x - y) == x - y
  {
    CentsAdd(x, y);
    RoundIsClose(x);
    RoundIsClose(y);
    RoundIsClose(x - y);
  }

  lemma TotalsDescribe(lines: seq<Line>, sources: seq<Source>, ctc: real, basic: real)
    requires multiset(lines) == multiset(LinesOf(sources, ctc, basic)) && SortedByCode(lines)
    ensures Describes(BreakupOf(lines), sources, ctc, basic)
  {
    var gross, deductions := MonthlyTotal(lines, "EARNING"), MonthlyTotal(lines, "DEDUCTION");
    LinesAreRounded(lines, sources, ctc, basic);
    TotalsAreCents(lines, "EARNING");
    TotalsAreCents(lines, "DEDUCTION");
    CentsKept(gross, deductions);
  }

  lemma {:induction false} MonthlyNearAnnual(lines: seq<Line>, kind: string)
    requires forall k :: 0 <= k < |lines| ==> Rounded(lines[k])
    ensures -0.06 * CountOf(lines, kind) as real <= 12.0 * MonthlyTotal(lines, kind) - AnnualTotal(lines, kind)
      <= 0.06 * CountOf(lines, kind) as real
  {
    if lines != [] {
      assert Rounded(lines[0]);
      MonthlyNearAnnual(lines[1..], kind);
      RoundIsClose(lines[0].annual / 12.0);
    }
  }

  /** Twelve months of gross miss the annual earnings by at most six hundredths per earning line; net is exact. */
  lemma GrossNearAnnual(b: Breakup, sources: seq<Source>, ctc: real, basic: real)
    requires Describes(b, sources, ctc, basic)
    ensures var slack := 0.06 * CountOf(b.lines, "EARNING") as real;
      -slack <= 12.0 * b.gross - AnnualTotal(b.lines, "EARNING") <= slack
    ensures b.net == b.gross - b.deductions && WholeCents(b.net) && WholeCents(b.gross)
  {
    LinesAreRounded(b.lines, sources, ctc, basic);
    MonthlyNearAnnual(b.lines, "EARNING");
    TotalsAreCents(b.lines, "EARNING");
    TotalsAreCents(b.lines, "DEDUCTION");
    CentsAdd(b.gross, b.deductions);
  }

  // ---------------------------------------------------------------- rules against lines

  datatype Key = Key(code: string, basis: Option<Basis>, value: real)

  function RuleKey(rule: Rule): Key {
    Key(rule.code, Normalized(rule.basis), rule.value)
  }

  function LineKey(line: Line): Key {
    Key(line.code, Some(line.basis), line.value)
  }

  /** The lines carry the code, normalised basis and value of exactly the rules that fixed basic. */
  lemma RulesMatchLines(b: Breakup, sources: seq<Source>, ctc: real, basic: real)
    requires Describes(b, sources, ctc, basic) && AllComputable(sources)
    ensures multiset(Map(RuleKey, Map(AsRule, sources))) == multiset(Map(LineKey, b.lines))
  {
    var made := LinesOf(sources, ctc, basic);
    MapPermutes(LineKey, b.lines, made);
    forall i | 0 <= i < |sources| ensures RuleKey(AsRule(sources[i])) == LineKey(made[i]) {
      assert Computable(sources[i]);
    }
    assert Map(RuleKey, Map(AsRule, sources)) == Map(LineKey, made);
  }

  lemma {:induction false} FindFinds(rules: seq<Rule>, code: string)
    ensures Find(rules, code).Some? ==> Find(rules, code).value in rules
  {
    if rules != [] {
      FindFinds(rules[1..], code);
    }
  }

  /** The basic everything else is a percentage of is itself a line, at its rounded annual amount. */
  lemma BasicIsALine(b: Breakup, sources: seq<Source>, ctc: real, baseCode: string, fallback: real)
    requires ResolveBasic(Map(AsRule, sources), ctc, baseCode, fallback).Ok?
    requires Describes(b, sources, ctc, ResolveBasic(Map(AsRule, sources), ctc, baseCode, fallback).value)
    requires BasicRule(Map(AsRule, sources), baseCode).Some?
    ensures var rules := Map(AsRule, sources);
      exists line :: line in b.lines && LineKey(line) == RuleKey(BasicRule(rules, baseCode).value)
                     && line.annual == Round2(ResolveBasic(rules, ctc, baseCode, fallback).value)
  {
    var rules := Map(AsRule, sources);
    var basic := ResolveBasic(rules, ctc, baseCode, fallback).value;
    FindFinds(rules, ToUpper(Trim(baseCode)));
    FindFinds(rules, "BASIC");
    var i :| 0 <= i < |rules| && rules[i] == BasicRule(rules, baseCode).value;
    var made := LinesOf(sources, ctc, basic);
    assert made[i] in multiset(made);
    assert made[i] in multiset(b.lines);
    BasicLine(sources[i], ctc, basic);
  }

  lemma BasicLine(s: Source, ctc: real, basic: real)
    requires Computable(s) && !Normalized(s.basis).value.PercentOfBasic?
    requires basic == AmountFromRule(Normalized(s.basis).value, s.value, ctc, 0.0)
    ensures LineKey(AsLine(s, ctc, basic)) == RuleKey(AsRule(s)) && AsLine(s, ctc, basic).annual == Round2(basic)
  {
    var basis := Normalized(s.basis).value;
    BasicMatters(basis, s.value, ctc, 0.0, basic);
    assert AsLine(s, ctc, basic).annual == Round2(AmountFromRule(basis, s.value, ctc, basic));
  }

  /** Only a percentage of basic depends on what basic is. */
  lemma BasicMatters(basis: Basis, value: real, ctc: real, a: real, b: real)
    requires !basis.PercentOfBasic?
    ensures AmountFromRule(basis, value, ctc, a) == AmountFromRule(basis, value, ctc, b)
  {
    match basis
    case FixedAnnual =>
    case FixedMonthly =>
    case PercentOfCtc =>
  }

  // ---------------------------------------------------------------- the breakup in plain terms

  /** Half a cent goes to the even neighbour. */
  lemma HalfGoesToEven(cents: int)
    ensures Round2((2 * cents + 1) as real / 200.0) == (if cents % 2 == 0 then cents else cents + 1) as real / 100.0
  {
    var x := (2 * cents + 1) as real / 200.0;
    assert x * 100.0 == cents as real + 0.5;
    assert (x * 100.0).Floor == cents;
  }

  lemma NormalizedMeans(basis: string)
    ensures var b := ToUpper(Trim(basis));
      && (Normalized(basis) == Some(FixedAnnual) <==> b == "FIXED_ANNUAL")
      && (Normalized(basis) == Some(FixedMonthly) <==> b == "FIXED_MONTHLY")
      && (Normalized(basis) == Some(PercentOfCtc) <==> b == "PERCENT_OF_CTC")
      && (Normalized(basis) == Some(PercentOfBasic) <==> b == "PERCENT_OF_BASIC")
  {
    BasesDiffer();
  }

  lemma BasesDiffer()
    ensures "FIXED_ANNUAL" != "FIXED_MONTHLY" && "FIXED_ANNUAL" != "PERCENT_OF_CTC"
    ensures "FIXED_ANNUAL" != "PERCENT_OF_BASIC" && "FIXED_MONTHLY" != "PERCENT_OF_CTC"
    ensures "FIXED_MONTHLY" != "PERCENT_OF_BASIC" && "PERCENT_OF_CTC" != "PERCENT_OF_BASIC"
  {
    assert |"FIXED_ANNUAL"| == 12 && |"FIXED_MONTHLY"| == 13 && |"PERCENT_OF_CTC"| == 14 && |"PERCENT_OF_BASIC"| == 16;
  }

  /** So many hundredths of an amount, to the cent. */
  function PercentOf(base: real, percent: real): real {
    Round2(base * percent / 100.0)
  }

  /** Twelve months of an amount. */
  function Yearly(monthly: real): real {
    12.0 * monthly
  }

  /** A year's amount of a line by the spelling of its basis, and a twelfth of it a month, in whole cents. */
  ghost predicate Priced(line: Line, spelled: string, value: real, ctc: real, basic: real) {
    && line.monthly == Round2(line.annual / 12.0)
    && (spelled == "FIXED_ANNUAL" ==> line.annual == Round2(value))
    && (spelled == "FIXED_MONTHLY" ==> line.annual == Round2(Yearly(value)))
    && (spelled == "PERCENT_OF_CTC" ==> line.annual == PercentOf(ctc, value))
    && (spelled == "PERCENT_OF_BASIC" ==> line.annual == PercentOf(basic, value))
    && (spelled == "FIXED_ANNUAL" || spelled == "FIXED_MONTHLY" || spelled == "PERCENT_OF_CTC"
        || spelled == "PERCENT_OF_BASIC")
  }

  lemma AmountMeans(basis: Basis, value: real, ctc: real, basic: real)
    ensures basis.FixedAnnual? ==> AmountFromRule(basis, value, ctc, basic) == value
    ensures basis.FixedMonthly? ==> AmountFromRule(basis, value, ctc, basic) == Yearly(value)
    ensures basis.PercentOfCtc? ==> AmountFromRule(basis, value, ctc, basic) == PercentOf(ctc, value)
    ensures basis.PercentOfBasic? ==> AmountFromRule(basis, value, ctc, basic) == PercentOf(basic, value)
  {
  }

  lemma AnnualMeans(s: Source, ctc: real, basic: real)
    requires Computable(s)
    ensures var basis, annual := Normalized(s.basis).value, AsLine(s, ctc, basic).annual;
      && (basis.FixedAnnual? ==> annual == Round2(s.value))
      && (basis.FixedMonthly? ==> annual == Round2(Yearly(s.value)))
      && (basis.PercentOfCtc? ==> annual == PercentOf(ctc, s.value))
      && (basis.PercentOfBasic? ==> annual == PercentOf(basic, s.value))
  {
    AmountMeans(Normalized(s.basis).value, s.value, ctc, basic);
    PercentIsRounded(ctc, s.value);
    PercentIsRounded(basic, s.value);
  }

  lemma LineIsPriced(s: Source, ctc: real, basic: real)
    requires Computable(s)
    ensures Priced(AsLine(s, ctc, basic), ToUpper(Trim(s.basis)), s.value, ctc, basic)
  {
    NormalizedMeans(s.basis);
    AnnualMeans(s, ctc, basic);
  }

  lemma PercentIsRounded(base: real, percent: real)
    ensures Round2(PercentOf(base, percent)) == PercentOf(base, percent)
  {
    RoundIsClose(base * percent / 100.0);
    RoundIsClose(PercentOf(base, percent));
  }

  /** A rule source of a structure row: an override of its component replaces its basis and value. */
  ghost predicate FromRow(
      s: Source, row: StructureRow, active: map<int, Component>, overrides: map<int, Override>)
  {
    && s.component == row.component && row.component in active
    && s.code == active[row.component].code && s.kind == active[row.component].kind
    && s.isOverride == (row.component in overrides)
    && (row.component in overrides ==>
          s.basis == overrides[row.component].basis && s.value == overrides[row.component].value)
    && (row.component !in overrides ==>
          && s.basis == row.basis
          && (row.value.Some? ==> s.value == row.value.value)
          && (row.value.None? && row.percentage.Some? ==> s.value == row.percentage.value)
          && (row.value.None? && row.percentage.None? && row.amount.Some? ==> s.value == row.amount.value)
          && (row.value.None? && row.percentage.None? && row.amount.None? ==> s.value == 0.0))
  }

  /** A rule source of an override whose active component no row of the structure has. */
  ghost predicate FromOverride(
      s: Source, rows: seq<StructureRow>, active: map<int, Component>, overrides: map<int, Override>)
  {
    && s.component in active && s.component in overrides && s.isOverride
    && (forall row :: row in rows ==> row.component != s.component)
    && s.code == active[s.component].code && s.kind == active[s.component].kind
    && s.basis == overrides[s.component].basis && s.value == overrides[s.component].value
  }

  /** The rules come from the rows and from the overrides without a row, and from nothing else. */
  lemma SourcesMean(
      rows: seq<StructureRow>, ids: seq<int>, active: map<int, Component>, overrides: map<int, Override>, s: Source)
    requires forall row :: row in rows ==> row.component in active
    requires Lists(ids, overrides.Keys * active.Keys)
    ensures s in Sources(rows, ids, active, overrides) <==>
      (exists row :: row in rows && FromRow(s, row, active, overrides)) || FromOverride(s, rows, active, overrides)
  {
    var listed := Map(row => RowSource(row, active, overrides), rows);
    var extras := Map(id => ExtraSource(id, active, overrides), Extras(ids, rows, active));
    assert s in Sources(rows, ids, active, overrides) <==> s in listed || s in extras;
    RowSourcesMean(rows, active, overrides, s);
    ExtraSourcesMean(rows, ids, active, overrides, s);
  }

  lemma RowSourcesMean(rows: seq<StructureRow>, active: map<int, Component>, overrides: map<int, Override>, s: Source)
    requires forall row :: row in rows ==> row.component in active
    ensures s in Map(row => RowSource(row, active, overrides), rows) <==>
      exists row :: row in rows && FromRow(s, row, active, overrides)
  {
    var listed := Map(row => RowSource(row, active, overrides), rows);
    forall row | row in rows ensures RowSource(row, active, overrides) == s <==> FromRow(s, row, active, overrides) {
    }
    if s in listed {
      var i :| 0 <= i < |listed| && listed[i] == s;
      assert rows[i] in rows;
    }
    if row :| row in rows && FromRow(s, row, active, overrides) {
      var i :| 0 <= i < |rows| && rows[i] == row;
      assert listed[i] == s;
    }
  }

  lemma ExtraSourcesMean(
      rows: seq<StructureRow>, ids: seq<int>, active: map<int, Component>, overrides: map<int, Override>, s: Source)
    requires Lists(ids, overrides.Keys * active.Keys)
    ensures s in Map(id => ExtraSource(id, active, overrides), Extras(ids, rows, active)) <==>
      FromOverride(s, rows, active, overrides)
  {
    var picked := Extras(ids, rows, active);
    var extras := Map(id => ExtraSource(id, active, overrides), picked);
    ExtrasAre(ids, rows, active);
    assert Listed(rows, s.component) <==> exists row :: row in rows && row.component == s.component;
    if s in extras {
      var i :| 0 <= i < |extras| && extras[i] == s;
      assert picked[i] in picked && picked[i] in ids;
    }
    if FromOverride(s, rows, active, overrides) {
      assert s.component in ids && s.component in picked;
      var i :| 0 <= i < |picked| && picked[i] == s.component;
      assert extras[i] == s;
    }
  }

  /** The rows used are the structure's rows of active components. */
  lemma {:induction false} JoinedMeans(structure: seq<StructureRow>, active: map<int, Component>, row: StructureRow)
    ensures row in Joined(structure, active) <==> row in structure && row.component in active
  {
    if structure != [] {
      JoinedMeans(structure[1..], active, row);
      assert structure == [structure[0]] + structure[1..];
    }
  }

  /** `rules[i]` is the first whose code spells `code` in whatever case. */
  ghost predicate FirstNamed(rules: seq<Rule>, code: string, i: nat) {
    && i < |rules| && ToLower(rules[i].code) == ToLower(code)
    && forall j :: 0 <= j < i ==> ToLower(rules[j].code) != ToLower(code)
  }

  lemma {:induction false} FindIsFirst(rules: seq<Rule>, code: string)
    ensures Find(rules, code).Some? ==>
      exists i: nat :: FirstNamed(rules, code, i) && Find(rules, code).value == rules[i]
    ensures Find(rules, code).None? ==> forall i :: 0 <= i < |rules| ==> ToLower(rules[i].code) != ToLower(code)
  {
    if rules != [] {
      FindIsFirst(rules[1..], code);
      if SameIgnoringCase(rules[0].code, code) {
        assert FirstNamed(rules, code, 0);
      } else if i: nat :| FirstNamed(rules[1..], code, i) && Find(rules[1..], code) == Some(rules[1..][i]) {
        assert FirstNamed(rules, code, i + 1);
      }
    }
  }

  /**
   The annual basic: by the first rule with the wanted code, or else the first called BASIC, or else the
   fallback if there is one, or else the whole CTC. A rule that is a percentage of basic or of an unknown
   basis is an error.
   */
  lemma BasicMeans(rules: seq<Rule>, ctc: real, baseCode: string, fallback: real)
    ensures var r, wanted := ResolveBasic(rules, ctc, baseCode, fallback), ToUpper(Trim(baseCode));
      var named := exists i :: 0 <= i < |rules| && ToLower(rules[i].code) == ToLower(wanted);
      var basics := exists i :: 0 <= i < |rules| && ToLower(rules[i].code) == ToLower("BASIC");
      && (named ==> exists i: nat :: FirstNamed(rules, wanted, i) && BasicFrom(rules[i], ctc, r))
      && (!named && basics ==> exists i: nat :: FirstNamed(rules, "BASIC", i) && BasicFrom(rules[i], ctc, r))
      && (!named && !basics && fallback > 0.0 ==> r == Ok(fallback))
      && (!named && !basics && fallback <= 0.0 ==> r == Ok(ctc))
  {
    FindIsFirst(rules, ToUpper(Trim(baseCode)));
    FindIsFirst(rules, "BASIC");
    forall i | 0 <= i < |rules| ensures BasicFrom(rules[i], ctc, FromRule(rules[i], ctc)) {
      RuleGivesBasic(rules[i], ctc);
    }
  }

  function FromRule(rule: Rule, ctc: real): Result<real, Problem> {
    match Normalized(rule.basis)
    case None => Err(BadBasis)
    case Some(basis) => if basis.PercentOfBasic? then Err(BasicOfBasic)
      else Ok(AmountFromRule(basis, rule.value, ctc, 0.0))
  }

  ghost predicate BasicFrom(rule: Rule, ctc: real, r: Result<real, Problem>) {
    var spelled := ToUpper(Trim(rule.basis));
    && (spelled == "FIXED_ANNUAL" ==> r == Ok(rule.value))
    && (spelled == "FIXED_MONTHLY" ==> r == Ok(Yearly(rule.value)))
    && (spelled == "PERCENT_OF_CTC" ==> r == Ok(PercentOf(ctc, rule.value)))
    && (spelled == "PERCENT_OF_BASIC" ==> r == Err(BasicOfBasic))
    && (spelled == "FIXED_ANNUAL" || spelled == "FIXED_MONTHLY" || spelled == "PERCENT_OF_CTC"
        || spelled == "PERCENT_OF_BASIC" || r == Err(BadBasis))
  }

  lemma RuleGivesBasic(rule: Rule, ctc: real)
    ensures BasicFrom(rule, ctc, FromRule(rule, ctc))
  {
    NormalizedMeans(rule.basis);
    if Normalized(rule.basis).Some? {
      AmountMeans(Normalized(rule.basis).value, rule.value, ctc, 0.0);
    }
  }

  /** A total is the sum over the lines whose kind spells it in whatever case. */
  lemma {:induction false} TotalsAdd(lines: seq<Line>, line: Line, kind: string)
    ensures MonthlyTotal([], kind) == 0.0
    ensures MonthlyTotal(lines + [line], kind) ==
      MonthlyTotal(lines, kind) + if ToLower(line.kind) == ToLower(kind) then line.monthly else 0.0
  {
    if lines == [] {
      assert lines + [line] == [line] && [line][1..] == [];
    } else {
      assert (lines + [line])[1..] == lines[1..] + [line];
      TotalsAdd(lines[1..], line, kind);
    }
  }

  /**
   Every line of a breakup is priced by a structure row or an override without one, and every such row
   and override has its line.
   */
  lemma BreakupMeans(
      b: Breakup, structure: seq<StructureRow>, ids: seq<int>, active: map<int, Component>,
      overrides: map<int, Override>, ctc: real, basic: real)
    requires Lists(ids, overrides.Keys * active.Keys)
    requires AllComputable(Sources(Joined(structure, active), ids, active, overrides))
    requires Describes(b, Sources(Joined(structure, active), ids, active, overrides), ctc, basic)
    ensures b.gross == MonthlyTotal(b.lines, "EARNING") && b.deductions == MonthlyTotal(b.lines, "DEDUCTION")
    ensures b.net == b.gross - b.deductions
    ensures forall line :: line in b.lines ==>
      exists s :: Used(s, structure, active, overrides) && LineOf(line, s, ctc, basic)
    ensures forall s :: Used(s, structure, active, overrides) ==>
      exists line :: line in b.lines && LineOf(line, s, ctc, basic)
  {
    var sources := Sources(Joined(structure, active), ids, active, overrides);
    forall s ensures s in sources <==> Used(s, structure, active, overrides) {
      UsedAre(structure, ids, active, overrides, s);
    }
    forall line | line in b.lines
      ensures exists s :: Used(s, structure, active, overrides) && LineOf(line, s, ctc, basic) {
      var i := LineHasSource(b.lines, sources, line, ctc, basic);
      assert sources[i] in sources;
    }
    forall s | Used(s, structure, active, overrides)
      ensures exists line :: line in b.lines && LineOf(line, s, ctc, basic) {
      var line := SourceHasLine(b.lines, sources, s, ctc, basic);
    }
  }

  lemma LineHasSource(lines: seq<Line>, sources: seq<Source>, line: Line, ctc: real, basic: real) returns (i: nat)
    requires multiset(lines) == multiset(LinesOf(sources, ctc, basic)) && AllComputable(sources) && line in lines
    ensures i < |sources| && LineOf(line, sources[i], ctc, basic)
  {
    var made := LinesOf(sources, ctc, basic);
    assert line in multiset(lines) && line in multiset(made);
    i :| 0 <= i < |made| && made[i] == line;
    LineIsPriced(sources[i], ctc, basic);
  }

  lemma SourceHasLine(lines: seq<Line>, sources: seq<Source>, s: Source, ctc: real, basic: real) returns (line: Line)
    requires multiset(lines) == multiset(LinesOf(sources, ctc, basic)) && AllComputable(sources) && s in sources
    ensures line in lines && LineOf(line, s, ctc, basic)
  {
    var made := LinesOf(sources, ctc, basic);
    var i :| 0 <= i < |sources| && sources[i] == s;
    line := made[i];
    assert line in multiset(made) && line in multiset(lines);
    LineIsPriced(s, ctc, basic);
  }

  ghost predicate LineOf(line: Line, s: Source, ctc: real, basic: real) {
    && line.component == s.component && line.code == s.code && line.kind == s.kind
    && line.value == s.value && line.isOverride == s.isOverride
    && Priced(line, ToUpper(Trim(s.basis)), s.value, ctc, basic)
  }

  ghost predicate Used(
      s: Source, structure: seq<StructureRow>, active: map<int, Component>, overrides: map<int, Override>)
  {
    || (exists row :: row in structure && FromRow(s, row, active, overrides))
    || (&& s.component in active && s.component in overrides && s.isOverride
        && (forall row :: row in structure ==> row.component != s.component)
        && s.code == active[s.component].code && s.kind == active[s.component].kind
        && s.basis == overrides[s.component].basis && s.value == overrides[s.component].value)
  }

  lemma UsedAre(
      structure: seq<StructureRow>, ids: seq<int>, active: map<int, Component>, overrides: map<int, Override>,
        s: Source)
    requires Lists(ids, overrides.Keys * active.Keys)
    ensures s in Sources(Joined(structure, active), ids, active, overrides) <==> Used(s, structure, active, overrides)
  {
    var rows := Joined(structure, active);
    forall row ensures row in rows <==> row in structure && row.component in active {
      JoinedMeans(structure, active, row);
    }
    SourcesMean(rows, ids, active, overrides, s);
  }
}
