// The observation layout: read line by line from the deployment's
// configuration, then used to lay named blocks into one decoder input.
module ObservationLayout {
  import opened Outcome

  type Row = seq<real>

  const TOKEN_DIM: nat := 64
  const TOKEN_STATE := "token_state"

  datatype Entry = Entry(name: string, offset: nat, dim: nat)

  datatype ReplayError =
    | Malformed(line: string)
    | NotRegistered(name: string)
    | WrongTotal(got: nat, expected: int)
    | WrongTokenWidth(got: nat)
    | NoBuilder(name: string)
    | WrongBlockWidth(name: string, got: nat, declared: nat)
    | UnknownHypothesis(hypothesis: string)
    | UnknownSource(source: string)
    | NoRecordedTarget
    | NoSeed
    | WrongObservationWidth(got: nat, expected: int)

  // ---------------------------------------------------------------- layouts

  function Width(layout: seq<Entry>): nat {
    if layout == [] then 0
    else Width(layout[..|layout| - 1]) + layout[|layout| - 1].dim
  }

  // Every block starts where the blocks before it end.
  ghost predicate Contiguous(layout: seq<Entry>) {
    forall i :: 0 <= i < |layout| ==> layout[i].offset == Width(layout[..i])
  }

  lemma {:induction false} WidthOfPrefix(layout: seq<Entry>, i: nat)
    requires i < |layout|
    ensures Width(layout[..i + 1]) == Width(layout[..i]) + layout[i].dim
    ensures Width(layout[..i + 1]) <= Width(layout)
    decreases |layout| - i
  {
    assert layout[..i + 1][..i] == layout[..i];
    if i + 1 < |layout| {
      WidthOfPrefix(layout, i + 1);
    } else {
      assert layout[..i + 1] == layout;
    }
  }

  lemma {:induction false} OffsetsIncrease(layout: seq<Entry>, i: nat, j: nat)
    requires i < j <= |layout|
    ensures Width(layout[..i]) + layout[i].dim <= Width(layout[..j])
    decreases j
  {
    WidthOfPrefix(layout, i);
    if j > i + 1 {
      OffsetsIncrease(layout, i, j - 1);
      WidthOfPrefix(layout, j - 1);
    }
  }

  lemma FrontContiguous(layout: seq<Entry>)
    requires Contiguous(layout) && layout != []
    ensures Contiguous(layout[..|layout| - 1])
  {
    var front := layout[..|layout| - 1];
    forall i | 0 <= i < |front|
      ensures front[i].offset == Width(front[..i])
    {
      assert front[..i] == layout[..i];
    }
  }

  lemma ContiguousExtends(layout: seq<Entry>, entry: Entry)
    requires Contiguous(layout) && entry.offset == Width(layout)
    ensures Contiguous(layout + [entry]) && Width(layout + [entry]) == Width(layout) + entry.dim
  {
    var longer := layout + [entry];
    assert longer[..|layout|] == layout;
    forall i | 0 <= i < |longer|
      ensures longer[i].offset == Width(longer[..i])
    {
      assert longer[..i] == layout[..i];
    }
  }

  ghost predicate Covers(e: Entry, cell: int) {
    e.offset <= cell < e.offset + e.dim
  }

  // No cell of the uninitialised vector is left unwritten and none is written
  // by two blocks.
  lemma {:induction false} EachCellCoveredOnce(layout: seq<Entry>, cell: nat)
    requires Contiguous(layout)
    ensures cell < Width(layout) <==> exists i :: 0 <= i < |layout| && Covers(layout[i], cell)
    ensures forall i, j :: 0 <= i < |layout| && 0 <= j < |layout| && Covers(layout[i], cell) && Covers(layout[j], cell)
              ==> i == j
  {
    forall i, j | 0 <= i < j < |layout|
      ensures layout[i].offset + layout[i].dim <= layout[j].offset
    {
      OffsetsIncrease(layout, i, j);
    }
    hide Width, Contiguous;
    CellCovered(layout, cell);
  }

  lemma LastEntry(layout: seq<Entry>)
    requires layout != [] && Contiguous(layout)
    ensures var last := |layout| - 1;
            && layout[last].offset == Width(layout[..last])
            && Width(layout) == Width(layout[..last]) + layout[last].dim
  {
  }

  lemma {:induction false} CellCovered(layout: seq<Entry>, cell: nat)
    requires Contiguous(layout)
    ensures cell < Width(layout) <==> exists i :: 0 <= i < |layout| && Covers(layout[i], cell)
    decreases |layout|
  {
    if layout != [] {
      var last := |layout| - 1;
      var front := layout[..last];
      FrontContiguous(layout);
      LastEntry(layout);
      hide Width, Contiguous;
      CellCovered(front, cell);
      if Width(front) <= cell < Width(layout) {
        assert Covers(layout[last], cell);
      }
      if cell < Width(front) {
        var i :| 0 <= i < |front| && Covers(front[i], cell);
        assert Covers(layout[i], cell);
      }
      forall i | 0 <= i < |layout| && Covers(layout[i], cell)
        ensures cell < Width(layout)
      {
        if i < last {
          assert Covers(front[i], cell);
        }
      }
    }
  }

  // ---------------------------------------------------------------- parsing

  // `line.split('"')[1]`: the text after the first quote, up to the next one
  // or the end of the line.
  function AfterQuote(line: string): Option<string> {
    if line == "" then None
    else if line[0] == '"' then Some(UpToQuote(line[1..]))
    else AfterQuote(line[1..])
  }

  function UpToQuote(line: string): string {
    if line == "" || line[0] == '"' then "" else [line[0]] + UpToQuote(line[1..])
  }

  // The name a line declares: what stands between its first quote and the next
  // one, or the end of the line.
  lemma {:induction false} NameBetweenQuotes(line: string)
    ensures AfterQuote(line).None? <==> '"' !in line
    ensures AfterQuote(line).Some? ==>
              exists first, next :: QuotedAt(line, first, next) && AfterQuote(line).value == line[first + 1..next]
  {
    if line != "" && line[0] == '"' {
      QuotedFirst(line);
    } else if line != "" {
      assert line == [line[0]] + line[1..];
      NameBetweenQuotes(line[1..]);
      if AfterQuote(line).Some? {
        var first, next :| QuotedAt(line[1..], first, next) && AfterQuote(line).value == line[1..][first + 1..next];
        hide QuotedAt;
        QuotedLater(line, first, next);
      }
    }
  }

  lemma QuotedFirst(line: string)
    requires line != "" && line[0] == '"'
    ensures exists next :: QuotedAt(line, 0, next) && UpToQuote(line[1..]) == line[1..next]
  {
    var next := UpToIndex(line[1..]);
    assert line[1..][..next] == line[1..next + 1];
    assert QuotedAt(line, 0, next + 1);
  }

  lemma QuotedLater(line: string, first: int, next: int)
    requires line != "" && line[0] != '"' && QuotedAt(line[1..], first, next)
    ensures QuotedAt(line, first + 1, next + 1) && 0 <= first < next < |line|
    ensures line[1..][first + 1..next] == line[first + 1 + 1..next + 1]
  {
    forall k | 0 <= k < next + 1 && k != first + 1
      ensures line[k] != '"'
    {
      if k > 0 {
        assert line[k] == line[1..][k - 1];
      }
    }
  }

  // The first quote and the one after it, if there is another.
  ghost predicate QuotedAt(line: string, first: int, next: int) {
    && 0 <= first < next <= |line|
    && line[first] == '"' && (next == |line| || line[next] == '"')
    && (forall k :: 0 <= k < next && k != first ==> line[k] != '"')
  }

  lemma {:induction false} UpToIndex(line: string) returns (next: nat)
    ensures next <= |line| && UpToQuote(line) == line[..next]
    ensures (next == |line| || line[next] == '"') && forall k :: 0 <= k < next ==> line[k] != '"'
  {
    next := 0;
    if line != "" && line[0] != '"' {
      var rest := UpToIndex(line[1..]);
      next := rest + 1;
      assert line[..next] == [line[0]] + line[1..][..rest];
    }
  }

  datatype LineKind = EncoderHeader | ObservationsHeader | NameLine | OtherLine

  // The three prefixes are compared in this order, on a stripped line.
  function KindOf(line: string): LineKind {
    if "encoder:" <= line then EncoderHeader
    else if "observations:" <= line then ObservationsHeader
    else if "- name:" <= line then NameLine
    else OtherLine
  }

  // Which kind a line is, by its first characters.
  lemma KindByPrefix(line: string)
    ensures KindOf(line).EncoderHeader? <==> |line| >= 8 && line[..8] == "encoder:"
    ensures KindOf(line).ObservationsHeader? <==> |line| >= 13 && line[..13] == "observations:"
    ensures KindOf(line).NameLine? <==> |line| >= 7 && line[..7] == "- name:"
  {
    assert "encoder:"[0] == 'e' && "observations:"[0] == 'o' && "- name:"[0] == '-';
  }

  // Whether the last section header among these lines opened the observations.
  ghost predicate InObservations(lines: seq<string>) {
    lines != [] &&
    match KindOf(lines[|lines| - 1])
    case EncoderHeader => false
    case ObservationsHeader => true
    case _ => InObservations(lines[..|lines| - 1])
  }

  // The lines that declare an observation, in order.
  ghost function Declarations(lines: seq<string>): seq<string> {
    if lines == [] then []
    else
      var front := lines[..|lines| - 1];
      var last := lines[|lines| - 1];
      Declarations(front) + (if KindOf(last).NameLine? && InObservations(front) then [last] else [])
  }

  lemma ReadOneMore(lines: seq<string>, n: nat)
    requires n < |lines|
    ensures InObservations(lines[..n + 1]) ==
            match KindOf(lines[n]) {
              case EncoderHeader => false
              case ObservationsHeader => true
              case _ => InObservations(lines[..n])
            }
    ensures Declarations(lines[..n + 1]) ==
            if KindOf(lines[n]).NameLine? && InObservations(lines[..n]) then Declarations(lines[..n]) + [lines[n]]
            else Declarations(lines[..n])
  {
    assert lines[..n + 1][..n] == lines[..n];
  }

  ghost predicate Declares(line: string, registry: map<string, nat>) {
    AfterQuote(line).Some? && AfterQuote(line).value in registry
  }

  ghost predicate AllDeclared(declared: seq<string>, registry: map<string, nat>) {
    forall line :: line in declared ==> Declares(line, registry)
  }

  // One entry per declaration, in order, each starting where the last ended.
  ghost function LayoutOf(declared: seq<string>, registry: map<string, nat>): seq<Entry>
    requires AllDeclared(declared, registry)
  {
    if declared == [] then []
    else
      var front := LayoutOf(declared[..|declared| - 1], registry);
      var last := declared[|declared| - 1];
      assert last in declared;
      var name := AfterQuote(last).value;
      front + [Entry(name, Width(front), registry[name])]
  }

  lemma LayoutOfOneMore(declared: seq<string>, line: string, registry: map<string, nat>)
    requires AllDeclared(declared, registry) && Declares(line, registry)
    ensures AllDeclared(declared + [line], registry)
    ensures var before := LayoutOf(declared, registry);
            var name := AfterQuote(line).value;
            && LayoutOf(declared + [line], registry) == before + [Entry(name, Width(before), registry[name])]
            && Width(LayoutOf(declared + [line], registry)) == Width(before) + registry[name]
  {
    assert (declared + [line])[..|declared|] == declared;
    var before := LayoutOf(declared, registry);
    var entry := Entry(AfterQuote(line).value, Width(before), registry[AfterQuote(line).value]);
    assert (before + [entry])[..|before|] == before;
  }

  // The entry a declaration makes.
  ghost predicate EntryOf(line: string, registry: map<string, nat>, entry: Entry) {
    && AfterQuote(line) == Some(entry.name)
    && entry.name in registry && entry.dim == registry[entry.name]
  }

  lemma {:induction false} LayoutOfIsContiguous(declared: seq<string>, registry: map<string, nat>)
    requires AllDeclared(declared, registry)
    ensures Contiguous(LayoutOf(declared, registry))
    ensures |LayoutOf(declared, registry)| == |declared|
    ensures forall i :: 0 <= i < |declared| ==> EntryOf(declared[i], registry, LayoutOf(declared, registry)[i])
  {
    if declared != [] {
      hide Contiguous, Width, Declares, AfterQuote;
      var front, last := declared[..|declared| - 1], declared[|declared| - 1];
      FrontDeclared(declared, registry);
      LayoutOfSplits(declared, registry);
      hide LayoutOf, AllDeclared;
      LayoutOfIsContiguous(front, registry);
      var before, name := LayoutOf(front, registry), AfterQuote(last).value;
      var entry := Entry(name, Width(before), registry[name]);
      ContiguousExtends(before, entry);
      assert EntryOf(last, registry, entry);
      hide EntryOf;
      EntriesExtend(front, last, registry, before, entry);
      assert declared == front + [last];
    }
  }

  lemma EntriesExtend(front: seq<string>, last: string, registry: map<string, nat>, before: seq<Entry>, entry: Entry)
    requires |front| == |before| && EntryOf(last, registry, entry)
    requires forall i :: 0 <= i < |front| ==> EntryOf(front[i], registry, before[i])
    ensures forall i :: 0 <= i < |front| + 1 ==> EntryOf((front + [last])[i], registry, (before + [entry])[i])
  {
    hide EntryOf;
  }

  lemma FrontDeclared(declared: seq<string>, registry: map<string, nat>)
    requires AllDeclared(declared, registry) && declared != []
    ensures AllDeclared(declared[..|declared| - 1], registry)
    ensures AfterQuote(declared[|declared| - 1]).Some? && AfterQuote(declared[|declared| - 1]).value in registry
    ensures Declares(declared[|declared| - 1], registry)
  {
    hide AfterQuote;
    assert declared[|declared| - 1] in declared;
  }

  lemma LayoutOfSplits(declared: seq<string>, registry: map<string, nat>)
    requires declared != [] && AllDeclared(declared, registry) && AllDeclared(declared[..|declared| - 1], registry)
    requires AfterQuote(declared[|declared| - 1]).Some? && AfterQuote(declared[|declared| - 1]).value in registry
    ensures var before := LayoutOf(declared[..|declared| - 1], registry);
            var name := AfterQuote(declared[|declared| - 1]).value;
            LayoutOf(declared, registry) == before + [Entry(name, Width(before), registry[name])]
  {
  }

  function FirstTokenWidth(layout: seq<Entry>): nat {
    if layout == [] then 0
    else if layout[0].name == TOKEN_STATE then layout[0].dim
    else FirstTokenWidth(layout[1..])
  }

  // The width of the first block called `token_state`, and zero without one.
  lemma {:induction false} FirstTokenWidthIs(layout: seq<Entry>)
    ensures if exists i :: 0 <= i < |layout| && layout[i].name == "token_state"
            then exists i :: && 0 <= i < |layout| && layout[i].name == "token_state"
                             && (forall j :: 0 <= j < i ==> layout[j].name != "token_state")
                             && FirstTokenWidth(layout) == layout[i].dim
            else FirstTokenWidth(layout) == 0
  {
    if layout != [] && layout[0].name != "token_state" {
      var rest := layout[1..];
      FirstTokenWidthIs(rest);
      if i :| 0 <= i < |layout| && layout[i].name == "token_state" {
        assert rest[i - 1].name == "token_state";
        var k :| 0 <= k < |rest| && rest[k].name == "token_state"
                 && (forall j :: 0 <= j < k ==> rest[j].name != "token_state") && FirstTokenWidth(rest) == rest[k].dim;
        assert layout[k + 1] == rest[k];
        forall j | 0 <= j < k + 1
          ensures layout[j].name != "token_state"
        {
          if j > 0 {
            assert layout[j] == rest[j - 1];
          }
        }
      }
    }
  }

  ghost predicate Accepted(declared: seq<string>, registry: map<string, nat>, modelInputDim: int) {
    && AllDeclared(declared, registry)
    && Width(LayoutOf(declared, registry)) == modelInputDim
    && FirstTokenWidth(LayoutOf(declared, registry)) == TOKEN_DIM
  }

  // Declaration i is the first whose name is missing or unknown.
  ghost predicate FirstBad(declared: seq<string>, registry: map<string, nat>, i: int) {
    && 0 <= i < |declared|
    && !Declares(declared[i], registry)
    && forall j :: 0 <= j < i ==> Declares(declared[j], registry)
  }

  // The one complaint a refused list of declarations draws.
  ghost predicate IsComplaint(declared: seq<string>, registry: map<string, nat>, modelInputDim: int,
                              error: ReplayError) {
    match error
    case Malformed(line) => exists i :: FirstBad(declared, registry, i) && declared[i] == line && AfterQuote(line).None?
    case NotRegistered(name) => exists i :: FirstBad(declared, registry, i) && AfterQuote(declared[i]) == Some(name)
    case WrongTotal(got, expected) =>
      && AllDeclared(declared, registry)
      && got == Width(LayoutOf(declared, registry)) && expected == modelInputDim && got != expected
    case WrongTokenWidth(got) =>
      && AllDeclared(declared, registry)
      && Width(LayoutOf(declared, registry)) == modelInputDim
      && got == FirstTokenWidth(LayoutOf(declared, registry)) && got != TOKEN_DIM
    case _ => false
  }

  // No two complaints fit, and none fits an accepted list.
  lemma {:induction false} ComplaintUnique(declared: seq<string>, registry: map<string, nat>, modelInputDim: int,
                                           a: ReplayError, b: ReplayError)
    requires IsComplaint(declared, registry, modelInputDim, a)
    ensures !Accepted(declared, registry, modelInputDim)
    ensures IsComplaint(declared, registry, modelInputDim, b) ==> a == b
  {
    forall i, j | FirstBad(declared, registry, i) && FirstBad(declared, registry, j)
      ensures i == j
    {
    }
    forall i | FirstBad(declared, registry, i)
      ensures !AllDeclared(declared, registry)
    {
      assert declared[i] in declared;
    }
    hide FirstBad, AllDeclared, LayoutOf, FirstTokenWidth, Width;
  }

  lemma OneBadDeclaration(lines: seq<string>, n: nat, registry: map<string, nat>)
    requires n < |lines| && KindOf(lines[n]).NameLine? && InObservations(lines[..n])
    requires AllDeclared(Declarations(lines[..n]), registry) && !Declares(lines[n], registry)
    ensures !AllDeclared(Declarations(lines), registry)
    ensures var i := |Declarations(lines[..n])|;
            FirstBad(Declarations(lines), registry, i) && Declarations(lines)[i] == lines[n]
  {
    ReadOneMore(lines, n);
    DeclarationsGrow(lines, n + 1);
    var before, all, i := Declarations(lines[..n]), Declarations(lines), |Declarations(lines[..n])|;
    assert all[..i + 1] == before + [lines[n]];
    assert all[i] == lines[n] && all[i] in all;
    forall j | 0 <= j < i
      ensures Declares(all[j], registry)
    {
      assert all[j] == before[j] && before[j] in before;
    }
  }

  // A layout is returned exactly when every declared name is registered, the
  // widths add up to the model's input and the token block has its fixed
  // width; it then lists the declarations in order, without gap or overlap.
  // Otherwise the error is the one complaint the declarations draw.
  method ParseLayout(lines: seq<string>, registry: map<string, nat>, modelInputDim: int)
    returns (r: Result<seq<Entry>, ReplayError>)
    ensures r.Success? <==> Accepted(Declarations(lines), registry, modelInputDim)
    ensures r.Success? ==> r.value == LayoutOf(Declarations(lines), registry) && Contiguous(r.value)
    ensures r.Failure? ==> IsComplaint(Declarations(lines), registry, modelInputDim, r.error)
  {
    var layout: seq<Entry> := [];
    var offset: nat := 0;
    var inObservations := false;
    for n := 0 to |lines|
      invariant AllDeclared(Declarations(lines[..n]), registry)
      invariant layout == LayoutOf(Declarations(lines[..n]), registry)
      invariant offset == Width(layout)
      invariant inObservations <==> InObservations(lines[..n])
    {
      ReadOneMore(lines, n);
      match KindOf(lines[n])
      case EncoderHeader =>
        inObservations := false;
      case ObservationsHeader =>
        inObservations := true;
      case NameLine =>
        if inObservations {
          var name := AfterQuote(lines[n]);
          if !Declares(lines[n], registry) {
            OneBadDeclaration(lines, n, registry);
          }
          if name.None? {
            return Failure(Malformed(lines[n]));
          }
          if name.value !in registry {
            return Failure(NotRegistered(name.value));
          }
          LayoutOfOneMore(Declarations(lines[..n]), lines[n], registry);
          layout := layout + [Entry(name.value, offset, registry[name.value])];
          offset := offset + registry[name.value];
        }
      case OtherLine =>
    }
    assert lines[..|lines|] == lines;
    if offset != modelInputDim {
      return Failure(WrongTotal(offset, modelInputDim));
    }
    if FirstTokenWidth(layout) != TOKEN_DIM {
      return Failure(WrongTokenWidth(FirstTokenWidth(layout)));
    }
    LayoutOfIsContiguous(Declarations(lines), registry);
    return Success(layout);
  }

  // What was declared early stays declared.
  lemma {:induction false} DeclarationsGrow(lines: seq<string>, n: nat)
    requires n <= |lines|
    ensures Declarations(lines[..n]) <= Declarations(lines)
    decreases |lines| - n
  {
    if n == |lines| {
      assert lines[..n] == lines;
    } else {
      assert lines[..n + 1][..n] == lines[..n];
      DeclarationsGrow(lines, n + 1);
    }
  }

  // --------------------------------------------------------------- assembly

  // The blocks in layout order, or the complaint about the first bad one.
  function Assemble(layout: seq<Entry>, blocks: map<string, Row>): Result<Row, ReplayError> {
    if layout == [] then Success([])
    else
      var front :- Assemble(layout[..|layout| - 1], blocks);
      var last := layout[|layout| - 1];
      if last.name !in blocks then Failure(NoBuilder(last.name))
      else if |blocks[last.name]| != last.dim then
        Failure(WrongBlockWidth(last.name, |blocks[last.name]|, last.dim))
      else Success(front + blocks[last.name])
  }

  // `out[offset:offset + len(value)] = value`
  method AssignSlice(out: array<real>, offset: nat, value: Row)
    requires offset + |value| <= out.Length
    modifies out
    ensures out[..] == old(out[..offset]) + value + old(out[offset + |value|..])
  {
    for k := 0 to |value|
      invariant forall c :: 0 <= c < out.Length ==>
                  out[c] == if offset <= c < offset + k then value[c - offset] else old(out[c])
    {
      out[offset + k] := value[k];
    }
  }

  // Writes each block into its slice of an uninitialised vector.
  method BuildObservation(blocks: map<string, Row>, layout: seq<Entry>) returns (r: Result<Row, ReplayError>)
    requires Contiguous(layout)
    ensures r == Assemble(layout, blocks)
  {
    var out := new real[Width(layout)];
    for n := 0 to |layout|
      invariant Width(layout[..n]) <= out.Length
      invariant Assemble(layout[..n], blocks) == Success(out[..Width(layout[..n])])
    {
      var entry := layout[n];
      AssembleMore(layout, blocks, n);
      WidthOfPrefix(layout, n);
      hide Assemble, Width;
      if entry.name !in blocks {
        AssembleFails(layout, blocks, n + 1);
        return Failure(NoBuilder(entry.name));
      }
      var value := blocks[entry.name];
      if |value| != entry.dim {
        AssembleFails(layout, blocks, n + 1);
        return Failure(WrongBlockWidth(entry.name, |value|, entry.dim));
      }
      ghost var done := out[..entry.offset];
      AssignSlice(out, entry.offset, value);
      assert out[..entry.offset + entry.dim] == done + value;
    }
    assert layout[..|layout|] == layout && out[..Width(layout)] == out[..];
    return Success(out[..]);
  }

  // One entry more: its block, or the complaint about it.
  lemma AssembleMore(layout: seq<Entry>, blocks: map<string, Row>, n: nat)
    requires n < |layout| && Assemble(layout[..n], blocks).Success?
    ensures Assemble(layout[..n + 1], blocks) ==
            if layout[n].name !in blocks then Failure(NoBuilder(layout[n].name))
            else if |blocks[layout[n].name]| != layout[n].dim then
              Failure(WrongBlockWidth(layout[n].name, |blocks[layout[n].name]|, layout[n].dim))
            else Success(Assemble(layout[..n], blocks).value + blocks[layout[n].name])
  {
    assert layout[..n + 1][..n] == layout[..n];
  }

  lemma AssembleSplits(layout: seq<Entry>, blocks: map<string, Row>)
    requires layout != [] && Assemble(layout, blocks).Success?
    ensures var front, last := Assemble(layout[..|layout| - 1], blocks), layout[|layout| - 1];
            && front.Success? && last.name in blocks && |blocks[last.name]| == last.dim
            && Assemble(layout, blocks).value == front.value + blocks[last.name]
  {
  }

  lemma {:induction false} AssembleFails(layout: seq<Entry>, blocks: map<string, Row>, n: nat)
    requires n <= |layout| && Assemble(layout[..n], blocks).Failure?
    ensures Assemble(layout, blocks) == Assemble(layout[..n], blocks)
    decreases |layout| - n
  {
    if n == |layout| {
      assert layout[..n] == layout;
    } else {
      assert layout[..n + 1][..n] == layout[..n];
      AssembleFails(layout, blocks, n + 1);
    }
  }

  // An observation exists exactly when every declared block is supplied in its
  // declared width.
  lemma {:induction false} AssemblesWhen(layout: seq<Entry>, blocks: map<string, Row>)
    ensures Assemble(layout, blocks).Success? <==>
            forall i :: 0 <= i < |layout| ==> layout[i].name in blocks && |blocks[layout[i].name]| == layout[i].dim
  {
    if layout != [] {
      var front := layout[..|layout| - 1];
      AssemblesWhen(front, blocks);
      assert forall i :: 0 <= i < |front| ==> front[i] == layout[i];
    }
  }

  ghost predicate BlockFits(e: Entry, blocks: map<string, Row>) {
    e.name in blocks && |blocks[e.name]| == e.dim
  }

  ghost predicate FirstBadBlock(layout: seq<Entry>, blocks: map<string, Row>, i: int) {
    0 <= i < |layout| && !BlockFits(layout[i], blocks) && forall j :: 0 <= j < i ==> BlockFits(layout[j], blocks)
  }

  ghost function BlockComplaint(e: Entry, blocks: map<string, Row>): ReplayError {
    if e.name in blocks then WrongBlockWidth(e.name, |blocks[e.name]|, e.dim) else NoBuilder(e.name)
  }

  // A refused assembly complains of the first block that is missing or of
  // another width.
  lemma {:induction false} AssembleComplains(layout: seq<Entry>, blocks: map<string, Row>)
    requires Assemble(layout, blocks).Failure?
    ensures exists i :: FirstBadBlock(layout, blocks, i)
                        && Assemble(layout, blocks).error == BlockComplaint(layout[i], blocks)
  {
    var last := |layout| - 1;
    var front := layout[..last];
    LastBlockFails(layout, blocks);
    hide Assemble, BlockFits, BlockComplaint;
    if Assemble(front, blocks).Failure? {
      AssembleComplains(front, blocks);
      var i :| FirstBadBlock(front, blocks, i) && Assemble(front, blocks).error == BlockComplaint(front[i], blocks);
      assert FirstBadBlock(layout, blocks, i);
    } else {
      assert FirstBadBlock(layout, blocks, last);
    }
  }

  lemma LastBlockFails(layout: seq<Entry>, blocks: map<string, Row>)
    requires Assemble(layout, blocks).Failure?
    ensures layout != []
    ensures var last := |layout| - 1;
            match Assemble(layout[..last], blocks)
            case Failure(error) => Assemble(layout, blocks).error == error
            case Success(_) =>
              && !BlockFits(layout[last], blocks)
              && (forall j :: 0 <= j < last ==> BlockFits(layout[j], blocks))
              && Assemble(layout, blocks).error == BlockComplaint(layout[last], blocks)
  {
    AssemblesWhen(layout[..|layout| - 1], blocks);
    assert forall j :: 0 <= j < |layout| - 1 ==> layout[..|layout| - 1][j] == layout[j];
  }

  // Every block can be read back unchanged from its slice.
  lemma {:induction false} BlocksReadBack(layout: seq<Entry>, blocks: map<string, Row>, i: nat)
    requires Contiguous(layout) && Assemble(layout, blocks).Success?
    ensures |Assemble(layout, blocks).value| == Width(layout)
    ensures i < |layout| ==>
              && layout[i].name in blocks
              && layout[i].offset + layout[i].dim <= Width(layout)
              && Assemble(layout, blocks).value[layout[i].offset..layout[i].offset + layout[i].dim]
                 == blocks[layout[i].name]
  {
    if layout != [] {
      FrontContiguous(layout);
      LastEntry(layout);
      AssembleSplits(layout, blocks);
      hide Assemble, Width, Contiguous;
      var front, last := layout[..|layout| - 1], layout[|layout| - 1];
      BlocksReadBack(front, blocks, i);
      var head, tail := Assemble(front, blocks).value, blocks[last.name];
      if i < |front| {
        assert layout[i] == front[i];
        SliceOfHead(head, tail, layout[i].offset, layout[i].offset + layout[i].dim);
      } else {
        SliceOfTail(head, tail);
      }
    }
  }

  lemma SliceOfTail(head: Row, tail: Row)
    ensures (head + tail)[|head|..|head| + |tail|] == tail
  {
  }

  lemma SliceOfHead(head: Row, tail: Row, low: nat, high: nat)
    requires low <= high <= |head|
    ensures (head + tail)[low..high] == head[low..high]
  {
  }
}
