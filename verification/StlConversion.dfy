// ASCII STL to binary STL: a line parser, the byte writer, and an independent
// reader of the binary form.
module StlConversion {
  import opened Outcome

  type Byte = x: int | 0 <= x < 256

  type Word = x: int | 0 <= x < 0x1_0000_0000

  // A coordinate as the 32-bit pattern of its single-precision value, if there
  // is one: packing a finite number beyond that range raises.
  datatype Coordinate = Single(bits: Word) | TooLarge

  datatype Vec = Vec(x: Coordinate, y: Coordinate, z: Coordinate)

  // What the two patterns make of a line.  A line may match one and still not
  // hold numbers, such as `1e` or `--1`; reading it raises.
  datatype Line = Normal(direction: Vec) | Vertex(position: Vec) | Other | Malformed

  datatype Facet = Facet(normal: Vec, vertices: seq<Vec>)

  datatype StlError = BadNumber | NoFacets | TooManyFacets | NumberTooLarge

  const ZERO := Vec(Single(0), Single(0), Single(0))

  // ------------------------------------------------------------------ parsing

  ghost predicate Plain(lines: seq<Line>) {
    forall line :: line in lines ==> line.Normal? || line.Vertex?
  }

  // The lines that hold a normal or a vertex.
  function Significant(lines: seq<Line>): (r: seq<Line>)
    ensures Plain(r)
  {
    if lines == [] then []
    else
      var last := lines[|lines| - 1];
      Significant(lines[..|lines| - 1]) + (if last.Normal? || last.Vertex? then [last] else [])
  }

  function LeadingVertices(lines: seq<Line>): (k: nat)
    ensures k <= |lines|
    ensures forall i :: 0 <= i < k ==> lines[i].Vertex?
    ensures k < |lines| ==> !lines[k].Vertex?
  {
    if lines != [] && lines[0].Vertex? then 1 + LeadingVertices(lines[1..]) else 0
  }

  // Consecutive triples of vertices; one or two left over make no facet.
  function Triples(normal: Vec, vertices: seq<Line>): (r: seq<Facet>)
    requires forall i :: 0 <= i < |vertices| ==> vertices[i].Vertex?
  {
    if |vertices| < 3 then []
    else
      [Facet(normal, [vertices[0].position, vertices[1].position, vertices[2].position])]
      + Triples(normal, vertices[3..])
  }

  // The facets of a text: the runs of vertices between two normals, each cut
  // into triples under the normal before it.
  function FacetsOf(normal: Vec, lines: seq<Line>): seq<Facet>
    requires Plain(lines)
    decreases |lines|
  {
    var k := LeadingVertices(lines);
    Triples(normal, lines[..k])
    + (if k == |lines| then []
       else
         assert lines[k] in lines && forall l :: l in lines[k + 1..] ==> l in lines;
         FacetsOf(lines[k].direction, lines[k + 1..]))
  }

  // One line's effect on the parser's variables.
  datatype Parser = Parser(facets: seq<Facet>, normal: Vec, vertices: seq<Vec>)

  function AfterLine(p: Parser, line: Line): Parser {
    match line
    case Normal(direction) => Parser(p.facets, direction, [])
    case Vertex(position) =>
      var vertices := p.vertices + [position];
      if |vertices| == 3 then Parser(p.facets + [Facet(p.normal, vertices)], p.normal, [])
      else Parser(p.facets, p.normal, vertices)
    case _ => p
  }

  function AfterLines(p: Parser, lines: seq<Line>): Parser
    decreases |lines|
  {
    if lines == [] then p else AfterLines(AfterLine(p, lines[0]), lines[1..])
  }

  function AsLines(vertices: seq<Vec>): (r: seq<Line>)
    ensures |r| == |vertices|
    ensures forall i :: 0 <= i < |r| ==> r[i] == Vertex(vertices[i])
  {
    seq(|vertices|, i requires 0 <= i < |vertices| => Vertex(vertices[i]))
  }

  lemma NormalEndsRun(normal: Vec, vertices: seq<Vec>, direction: Vec, rest: seq<Line>)
    requires Plain(rest) && |vertices| < 3
    ensures var text := AsLines(vertices) + [Normal(direction)] + rest;
            Plain(text) && FacetsOf(normal, text) == FacetsOf(direction, rest)
  {
    var k, text := |vertices|, AsLines(vertices) + [Normal(direction)] + rest;
    LeadingBefore(text, k);
    assert text[k] == Normal(direction) && text[k + 1..] == rest;
    assert [] + FacetsOf(direction, rest) == FacetsOf(direction, rest);
  }

  // One line leaves the facets found and still to be found the same.
  lemma StepKeepsFacets(p: Parser, line: Line, rest: seq<Line>)
    requires (line.Normal? || line.Vertex?) && Plain(rest) && |p.vertices| < 3
    ensures var text, next := AsLines(p.vertices) + ([line] + rest), AfterLine(p, line);
            && |next.vertices| < 3 && Plain(text) && Plain(AsLines(next.vertices) + rest)
            && p.facets + FacetsOf(p.normal, text) == next.facets + FacetsOf(next.normal, AsLines(next.vertices) + rest)
  {
    hide FacetsOf;
    var text := AsLines(p.vertices) + ([line] + rest);
    assert AsLines(p.vertices) + [line] + rest == text;
    assert AsLines([]) + rest == rest;
    match line
    case Normal(direction) =>
      NormalEndsRun(p.normal, p.vertices, direction, rest);
    case Vertex(position) =>
      var vertices := p.vertices + [position];
      assert AsLines(vertices) + rest == text;
      if |vertices| == 3 {
        VerticesFirst(p.normal, vertices, rest);
      }
  }

  // Stepping through the lines finds what cutting into runs finds.
  lemma {:induction false} StepsFindFacets(p: Parser, lines: seq<Line>)
    requires Plain(lines) && |p.vertices| < 3
    ensures Plain(AsLines(p.vertices) + lines)
    ensures AfterLines(p, lines).facets == p.facets + FacetsOf(p.normal, AsLines(p.vertices) + lines)
    decreases |lines|
  {
    hide FacetsOf, AfterLine, AsLines;
    if lines == [] {
      assert AsLines(p.vertices) + lines == AsLines(p.vertices);
      TooFew(p.normal, p.vertices);
    } else {
      var line, rest := lines[0], lines[1..];
      assert lines == [line] + rest;
      assert line in lines && Plain(rest);
      StepKeepsFacets(p, line, rest);
      StepsFindFacets(AfterLine(p, line), rest);
    }
  }

  // The facets after a run of k vertices.
  ghost function AfterRun(lines: seq<Line>, k: nat): seq<Facet>
    requires Plain(lines) && k <= |lines| && (k < |lines| ==> !lines[k].Vertex?)
  {
    if k == |lines| then []
    else
      assert lines[k] in lines && forall l :: l in lines[k + 1..] ==> l in lines;
      FacetsOf(lines[k].direction, lines[k + 1..])
  }

  lemma RunThenRest(normal: Vec, lines: seq<Line>)
    requires Plain(lines)
    ensures var k := LeadingVertices(lines);
            FacetsOf(normal, lines) == Triples(normal, lines[..k]) + AfterRun(lines, k)
  {
  }

  lemma AfterRunShifts(three: seq<Line>, rest: seq<Line>, k: nat)
    requires |three| == 3 && Plain(three + rest) && Plain(rest) && k <= |rest| && (k < |rest| ==> !rest[k].Vertex?)
    ensures k < |rest| ==> !(three + rest)[k + 3].Vertex?
    ensures AfterRun(three + rest, k + 3) == AfterRun(rest, k)
  {
    var text := three + rest;
    if k < |rest| {
      assert text[k + 3] == rest[k];
      assert text[k + 3 + 1..] == rest[k + 1..];
    }
  }

  // Three vertices in front make one facet more.
  lemma VerticesFirst(normal: Vec, vertices: seq<Vec>, rest: seq<Line>)
    requires |vertices| == 3 && Plain(rest)
    ensures var text := AsLines(vertices) + rest;
            Plain(text) && FacetsOf(normal, text) == [Facet(normal, vertices)] + FacetsOf(normal, rest)
  {
    var three, k := AsLines(vertices), LeadingVertices(rest);
    var text := three + rest;
    assert Plain(text);
    hide FacetsOf, LeadingVertices, Triples, AsLines, AfterRun, Plain;
    RunThenRest(normal, text);
    RunThenRest(normal, rest);
    LeadingThree(three, rest);
    assert text[..k + 3] == three + rest[..k];
    TriplesThree(normal, vertices, rest[..k]);
    AfterRunShifts(three, rest, k);
    Rebracket([Facet(normal, vertices)], Triples(normal, rest[..k]), AfterRun(rest, k));
  }

  lemma Rebracket<T>(a: seq<T>, b: seq<T>, c: seq<T>)
    ensures (a + b) + c == a + (b + c)
  {
  }

  lemma LeadingThree(three: seq<Line>, rest: seq<Line>)
    requires |three| == 3 && three[0].Vertex? && three[1].Vertex? && three[2].Vertex?
    ensures LeadingVertices(three + rest) == 3 + LeadingVertices(rest)
  {
    var text := three + rest;
    assert text[1..][1..][1..] == rest;
    assert LeadingVertices(text[1..][1..]) == 1 + LeadingVertices(rest);
  }

  lemma TriplesThree(normal: Vec, vertices: seq<Vec>, more: seq<Line>)
    requires |vertices| == 3 && forall i :: 0 <= i < |more| ==> more[i].Vertex?
    ensures forall i :: 0 <= i < 3 + |more| ==> (AsLines(vertices) + more)[i].Vertex?
    ensures Triples(normal, AsLines(vertices) + more) == [Facet(normal, vertices)] + Triples(normal, more)
  {
    var text := AsLines(vertices) + more;
    assert text[3..] == more;
    assert [text[0].position, text[1].position, text[2].position] == vertices;
  }

  lemma TooFew(normal: Vec, vertices: seq<Vec>)
    requires |vertices| < 3
    ensures Plain(AsLines(vertices)) && FacetsOf(normal, AsLines(vertices)) == []
  {
    AllLead(AsLines(vertices));
  }

  lemma {:induction false} AllLead(lines: seq<Line>)
    requires forall i :: 0 <= i < |lines| ==> lines[i].Vertex?
    ensures LeadingVertices(lines) == |lines|
  {
    if lines != [] {
      AllLead(lines[1..]);
    }
  }

  lemma {:induction false} LeadingBefore(lines: seq<Line>, k: nat)
    requires k < |lines| && !lines[k].Vertex? && forall i :: 0 <= i < k ==> lines[i].Vertex?
    ensures LeadingVertices(lines) == k
  {
    if k > 0 {
      LeadingBefore(lines[1..], k - 1);
    }
  }

  lemma {:induction false} AfterConcat(p: Parser, a: seq<Line>, line: Line)
    ensures AfterLines(p, a + [line]) == AfterLine(AfterLines(p, a), line)
    decreases |a|
  {
    if a == [] {
      assert (a + [line])[1..] == [];
    } else {
      assert (a + [line])[1..] == a[1..] + [line];
      AfterConcat(AfterLine(p, a[0]), a[1..], line);
    }
  }

  lemma {:induction false} NoiseIgnored(p: Parser, lines: seq<Line>)
    ensures AfterLines(p, Significant(lines)) == AfterLines(p, lines)
  {
    if lines != [] {
      var front, last := lines[..|lines| - 1], lines[|lines| - 1];
      NoiseIgnored(p, front);
      AfterConcat(p, front, last);
      assert front + [last] == lines;
      if last.Normal? || last.Vertex? {
        AfterConcat(p, Significant(front), last);
      } else {
        assert Significant(front) + [] == Significant(front);
      }
    }
  }

  method ParseFacets(lines: seq<Line>) returns (r: Result<seq<Facet>, StlError>)
    ensures r.Failure? <==> Malformed in lines
    ensures r.Failure? ==> r.error == BadNumber
    ensures r.Success? ==> r.value == FacetsOf(ZERO, Significant(lines))
    ensures r.Success? ==> forall i :: 0 <= i < |r.value| ==> |r.value[i].vertices| == 3
  {
    var facets: seq<Facet>, normal, vertices: seq<Vec> := [], ZERO, [];
    for n := 0 to |lines|
      invariant Malformed !in lines[..n]
      invariant Parser(facets, normal, vertices) == AfterLines(Parser([], ZERO, []), lines[..n])
      invariant |vertices| < 3
      invariant forall i :: 0 <= i < |facets| ==> |facets[i].vertices| == 3
    {
      AfterConcat(Parser([], ZERO, []), lines[..n], lines[n]);
      assert lines[..n + 1] == lines[..n] + [lines[n]];
      match lines[n]
      case Normal(direction) =>
        normal := direction;
        vertices := [];
      case Vertex(position) =>
        vertices := vertices + [position];
        if |vertices| == 3 {
          facets := facets + [Facet(normal, vertices)];
          vertices := [];
        }
      case Malformed =>
        return Failure(BadNumber);
      case Other =>
    }
    assert lines[..|lines|] == lines;
    NoiseIgnored(Parser([], ZERO, []), lines);
    StepsFindFacets(Parser([], ZERO, []), Significant(lines));
    assert AsLines([]) + Significant(lines) == Significant(lines);
    assert [] + FacetsOf(ZERO, Significant(lines)) == FacetsOf(ZERO, Significant(lines));
    return Success(facets);
  }

  // The lines of well-formed facets: a normal and its three vertices each.
  function Written(facets: seq<Facet>): (r: seq<Line>)
    requires forall i :: 0 <= i < |facets| ==> |facets[i].vertices| == 3
    ensures Plain(r)
  {
    if facets == [] then []
    else [Normal(facets[0].normal)] + AsLines(facets[0].vertices) + Written(facets[1..])
  }

  lemma OneFacet(normal: Vec, f: Facet, rest: seq<Line>)
    requires |f.vertices| == 3 && Plain(rest)
    ensures var text := [Normal(f.normal)] + AsLines(f.vertices) + rest;
            Plain(text) && FacetsOf(normal, text) == [f] + FacetsOf(f.normal, rest)
  {
    var text, block := [Normal(f.normal)] + AsLines(f.vertices) + rest, AsLines(f.vertices) + rest;
    NormalEndsRun(normal, [], f.normal, block);
    assert AsLines([]) + [Normal(f.normal)] + block == text;
    hide FacetsOf;
    VerticesFirst(f.normal, f.vertices, rest);
  }

  // A text of well-formed facets parses back to them; the parser reads only the
  // significant lines, so others may stand anywhere in between.
  lemma {:induction false} WellFormedParses(normal: Vec, facets: seq<Facet>)
    requires forall i :: 0 <= i < |facets| ==> |facets[i].vertices| == 3
    ensures FacetsOf(normal, Written(facets)) == facets
    decreases |facets|
  {
    if facets == [] {
      TooFew(normal, []);
      assert AsLines([]) == [];
    } else {
      WrittenFirst(facets);
      hide FacetsOf, Written, AsLines, Plain;
      OneFacet(normal, facets[0], Written(facets[1..]));
      WellFormedParses(facets[0].normal, facets[1..]);
    }
  }

  lemma WrittenFirst(facets: seq<Facet>)
    requires facets != [] && forall i :: 0 <= i < |facets| ==> |facets[i].vertices| == 3
    ensures Written(facets) == [Normal(facets[0].normal)] + AsLines(facets[0].vertices) + Written(facets[1..])
  {
  }

  // ------------------------------------------------------------------ writing

  const HEADER_TEXT := "SONIC G1 binary STL conversion"

  function Header(): (r: seq<Byte>)
    ensures |r| == 80
    ensures forall i :: 0 <= i < 80 ==> r[i] == if i < |HEADER_TEXT| then HEADER_TEXT[i] as int % 256 else 0
  {
    seq(80, i => if 0 <= i < |HEADER_TEXT| then HEADER_TEXT[i] as int % 256 else 0)
  }

  // Little-endian packing of a 32-bit and of a 16-bit value.
  function Pack32(w: Word): (r: seq<Byte>)
    ensures |r| == 4
  {
    [w % 0x100, w / 0x100 % 0x100, w / 0x1_0000 % 0x100, w / 0x100_0000]
  }

  // The pieces of the file body, each written whole or not at all: four vectors
  // and an attribute count for every facet.
  datatype Chunk = Triple(v: Vec) | Attribute

  predicate VecFits(v: Vec) {
    v.x.Single? && v.y.Single? && v.z.Single?
  }

  predicate ChunkFits(c: Chunk) {
    c.Triple? ==> VecFits(c.v)
  }

  function PackVec(v: Vec): (r: seq<Byte>)
    requires VecFits(v)
    ensures |r| == 12
  {
    Pack32(v.x.bits) + Pack32(v.y.bits) + Pack32(v.z.bits)
  }

  function Pack(c: Chunk): (r: seq<Byte>)
    requires ChunkFits(c)
    ensures |r| == Size(c)
  {
    if c.Triple? then PackVec(c.v) else [0, 0]
  }

  function Size(c: Chunk): nat {
    if c.Triple? then 12 else 2
  }

  function TotalSize(chunks: seq<Chunk>): nat {
    if chunks == [] then 0 else Size(chunks[0]) + TotalSize(chunks[1..])
  }

  ghost predicate AllFit(chunks: seq<Chunk>) {
    forall c :: c in chunks ==> ChunkFits(c)
  }

  // What gets written of them: everything up to the first that does not fit.
  function Packed(chunks: seq<Chunk>): seq<Byte> {
    if chunks == [] || !ChunkFits(chunks[0]) then [] else Pack(chunks[0]) + Packed(chunks[1..])
  }

  function VertexChunks(vertices: seq<Vec>): (r: seq<Chunk>)
    ensures |r| == |vertices|
    ensures forall i :: 0 <= i < |r| ==> r[i] == Triple(vertices[i])
  {
    seq(|vertices|, i requires 0 <= i < |vertices| => Triple(vertices[i]))
  }

  function ChunksOf(f: Facet): seq<Chunk> {
    [Triple(f.normal)] + VertexChunks(f.vertices) + [Attribute]
  }

  function Chunks(facets: seq<Facet>): seq<Chunk> {
    if facets == [] then [] else Chunks(facets[..|facets| - 1]) + ChunksOf(facets[|facets| - 1])
  }

  lemma {:induction false} PackedConcat(a: seq<Chunk>, b: seq<Chunk>)
    ensures Packed(a + b) == if AllFit(a) then Packed(a) + Packed(b) else Packed(a)
  {
    if a == [] {
      assert a + b == b && [] + Packed(b) == Packed(b);
    } else {
      assert (a + b)[1..] == a[1..] + b;
      assert AllFit(a) <==> ChunkFits(a[0]) && AllFit(a[1..]) by {
        assert forall c :: c in a <==> c == a[0] || c in a[1..];
      }
      PackedConcat(a[1..], b);
    }
  }

  // A file cut short is shorter.
  lemma {:induction false} PackedLength(chunks: seq<Chunk>)
    ensures AllFit(chunks) ==> |Packed(chunks)| == TotalSize(chunks)
    ensures !AllFit(chunks) ==> |Packed(chunks)| < TotalSize(chunks)
  {
    if chunks != [] {
      assert forall c :: c in chunks <==> c == chunks[0] || c in chunks[1..];
      PackedLength(chunks[1..]);
    }
  }

  lemma {:induction false} SizeConcat(a: seq<Chunk>, b: seq<Chunk>)
    ensures TotalSize(a + b) == TotalSize(a) + TotalSize(b)
  {
    if a == [] {
      assert a + b == b;
    } else {
      assert (a + b)[1..] == a[1..] + b;
      SizeConcat(a[1..], b);
    }
  }

  lemma SizeOfFacet(f: Facet)
    requires |f.vertices| == 3
    ensures TotalSize(ChunksOf(f)) == 50
  {
    var c := ChunksOf(f);
    assert c == [Triple(f.normal), Triple(f.vertices[0]), Triple(f.vertices[1]), Triple(f.vertices[2]), Attribute];
    assert c[1..][1..][1..][1..] == [Attribute] && [Attribute][1..] == [];
    assert TotalSize([Attribute]) == 2 && TotalSize(c[1..][1..][1..]) == 14;
    assert TotalSize(c[1..][1..]) == 26 && TotalSize(c[1..]) == 38;
  }

  lemma {:induction false} SizeOfFacets(facets: seq<Facet>)
    requires forall k :: 0 <= k < |facets| ==> |facets[k].vertices| == 3
    ensures TotalSize(Chunks(facets)) == 50 * |facets|
  {
    if facets != [] {
      var n := |facets| - 1;
      SizeOfFacets(facets[..n]);
      SizeConcat(Chunks(facets[..n]), ChunksOf(facets[n]));
      SizeOfFacet(facets[n]);
    }
  }

  lemma {:induction false} ChunksPrefix(facets: seq<Facet>, n: nat)
    requires n < |facets|
    ensures Chunks(facets[..n + 1]) == Chunks(facets[..n]) + ChunksOf(facets[n])
  {
    assert facets[..n + 1][..n] == facets[..n];
  }

  // A facet that does not fit ends the file, whatever follows it.
  lemma {:induction false} CutShort(facets: seq<Facet>, n: nat)
    requires n <= |facets| && !AllFit(Chunks(facets[..n]))
    ensures !AllFit(Chunks(facets)) && Packed(Chunks(facets)) == Packed(Chunks(facets[..n]))
    decreases |facets| - n
  {
    if n == |facets| {
      assert facets[..n] == facets;
    } else {
      ChunksPrefix(facets, n);
      PackedConcat(Chunks(facets[..n]), ChunksOf(facets[n]));
      CutShort(facets, n + 1);
    }
  }

  // The body loop, which stops where packing raises.
  method WriteFacets(facets: seq<Facet>) returns (ok: bool, out: seq<Byte>)
    ensures ok <==> AllFit(Chunks(facets))
    ensures out == Packed(Chunks(facets))
  {
    hide Packed, ChunksOf;
    out := [];
    NothingPacked();
    for n := 0 to |facets|
      invariant AllFit(Chunks(facets[..n])) && out == Packed(Chunks(facets[..n]))
    {
      var written, record := WriteFacet(facets[n]);
      out := out + record;
      ChunksPrefix(facets, n);
      PackedConcat(Chunks(facets[..n]), ChunksOf(facets[n]));
      if !written {
        CutShort(facets, n + 1);
        return false, out;
      }
    }
    assert facets[..|facets|] == facets;
    return true, out;
  }

  lemma NothingPacked()
    ensures Packed([]) == []
  {
  }

  method WriteFacet(f: Facet) returns (ok: bool, out: seq<Byte>)
    ensures ok <==> AllFit(ChunksOf(f))
    ensures out == Packed(ChunksOf(f))
  {
    ghost var chunks := ChunksOf(f);
    var n := |f.vertices|;
    ChunkAt(f, -1);
    ChunkAt(f, n);
    hide PackVec, Packed, ChunksOf, AllFit, ChunkFits, Pack, VecFits;
    NothingPacked();
    assert chunks[..0] == [];
    if !VecFits(f.normal) {
      StopsAt(chunks, 0);
      return false, [];
    }
    out := PackVec(f.normal);
    PackedMore(chunks, 0);
    for k := 0 to n
      invariant AllFit(chunks[..k + 1]) && out == Packed(chunks[..k + 1])
    {
      ChunkAt(f, k);
      if !VecFits(f.vertices[k]) {
        StopsAt(chunks, k + 1);
        return false, out;
      }
      out := out + PackVec(f.vertices[k]);
      PackedMore(chunks, k + 1);
    }
    out := out + [0, 0];
    PackedMore(chunks, n + 1);
    assert chunks[..n + 2] == chunks;
    return true, out;
  }

  // The chunk after k + 1 others: the normal, the vertices, the attribute count.
  lemma ChunkAt(f: Facet, k: int)
    requires -1 <= k <= |f.vertices|
    ensures |ChunksOf(f)| == |f.vertices| + 2 && AllFit([])
    ensures var c := ChunksOf(f)[k + 1];
            if k == |f.vertices| then ChunkFits(c) && Pack(c) == [0, 0]
            else
              var v := if k < 0 then f.normal else f.vertices[k];
              (ChunkFits(c) <==> VecFits(v)) && (VecFits(v) ==> Pack(c) == PackVec(v))
  {
  }

  lemma PackedMore(chunks: seq<Chunk>, n: nat)
    requires n < |chunks| && AllFit(chunks[..n]) && ChunkFits(chunks[n])
    ensures AllFit(chunks[..n + 1]) && Packed(chunks[..n + 1]) == Packed(chunks[..n]) + Pack(chunks[n])
  {
    assert chunks[..n + 1] == chunks[..n] + [chunks[n]];
    PackedConcat(chunks[..n], [chunks[n]]);
    assert [chunks[n]][1..] == [];
    assert Packed([chunks[n]]) == Pack(chunks[n]) + Packed([]) == Pack(chunks[n]);
  }

  lemma StopsAt(chunks: seq<Chunk>, n: nat)
    requires n < |chunks| && AllFit(chunks[..n]) && !ChunkFits(chunks[n])
    ensures !AllFit(chunks) && Packed(chunks) == Packed(chunks[..n])
  {
    assert chunks[n] in chunks;
    assert chunks == chunks[..n] + chunks[n..];
    PackedConcat(chunks[..n], chunks[n..]);
    assert Packed(chunks[n..]) == [];
  }

  // What is written for a text.  A reader gets exactly the parsed facets from a
  // file that was written to its end, and nothing from one that was not: the
  // count beyond its field leaves the header alone, and a coordinate beyond
  // single precision cuts the body short.
  method ConvertAsciiStl(lines: seq<Line>) returns (r: Result<nat, StlError>, written: Option<seq<Byte>>)
    ensures var facets := FacetsOf(ZERO, Significant(lines));
            if Malformed in lines then r == Failure(BadNumber) && written == None
            else if facets == [] then r == Failure(NoFacets) && written == None
            else if |facets| >= 0x1_0000_0000 then r == Failure(TooManyFacets) && written == Some(Header())
            else
              && written == Some(Header() + Pack32(|facets|) + Packed(Chunks(facets)))
              && if AllFit(Chunks(facets)) then
                   && r == Success(|facets|)
                   && |written.value| == 84 + 50 * |facets|
                   && Decode(written.value) == Some(facets)
                 else
                   r == Failure(NumberTooLarge) && |written.value| < 84 + 50 * |facets|
    ensures r.Failure? && written.Some? ==> Decode(written.value) == None
  {
    hide FacetsOf, Decode, Pack32, Header, Packed, Chunks;
    var parsed := ParseFacets(lines);
    if parsed.Failure? {
      return Failure(parsed.error), None;
    }
    var facets := parsed.value;
    if facets == [] {
      return Failure(NoFacets), None;
    }
    if |facets| >= 0x1_0000_0000 {
      TooShort(Header());
      return Failure(TooManyFacets), Some(Header());
    }
    var out := Header();
    out := out + Pack32(|facets|);
    var ok, body := WriteFacets(facets);
    PackedLength(Chunks(facets));
    SizeOfFacets(facets);
    if !ok {
      CutShortUnreadable(facets, body);
      return Failure(NumberTooLarge), Some(out + body);
    }
    PackedRecords(facets);
    DecodeEncoded(facets);
    return Success(|facets|), Some(out + body);
  }

  // ------------------------------------------------------------------ reading

  function Read32(bytes: seq<Byte>, at: nat): Word
    requires at + 4 <= |bytes|
  {
    bytes[at] as int + 0x100 * (bytes[at + 1] as int) + 0x1_0000 * (bytes[at + 2] as int)
    + 0x100_0000 * (bytes[at + 3] as int)
  }

  function ReadVec(bytes: seq<Byte>, at: nat): Vec
    requires at + 12 <= |bytes|
  {
    Vec(Single(Read32(bytes, at)), Single(Read32(bytes, at + 4)), Single(Read32(bytes, at + 8)))
  }

  function ReadFacet(bytes: seq<Byte>, at: nat): Facet
    requires at + 50 <= |bytes|
  {
    Facet(ReadVec(bytes, at), [ReadVec(bytes, at + 12), ReadVec(bytes, at + 24), ReadVec(bytes, at + 36)])
  }

  // A binary STL file: 80 bytes of anything, the number of facets, and 50 bytes
  // for each.
  function Decode(bytes: seq<Byte>): Option<seq<Facet>> {
    if |bytes| < 84 then None
    else
      var n := Read32(bytes, 80);
      if |bytes| != 84 + 50 * n then None
      else Some(seq(n, i requires 0 <= i < n => ReadFacet(bytes, 84 + 50 * i)))
  }

  lemma TooShort(bytes: seq<Byte>)
    requires |bytes| < 84
    ensures Decode(bytes) == None
  {
  }

  lemma CutShortUnreadable(facets: seq<Facet>, body: seq<Byte>)
    requires |facets| < 0x1_0000_0000 && |body| < 50 * |facets|
    ensures Decode(Header() + Pack32(|facets|) + body) == None
  {
    hide Header, Pack32, Read32;
    var bytes := Header() + Pack32(|facets|) + body;
    assert bytes[80..80 + 4] == Pack32(|facets|);
    ReadPacked(|facets|, bytes, 80);
  }

  // ------------------------------------------------------- records and reading

  ghost predicate Writable(f: Facet) {
    |f.vertices| == 3 && VecFits(f.normal) && forall k :: 0 <= k < 3 ==> VecFits(f.vertices[k])
  }

  // A writable facet's fifty bytes, and those of several in a row.
  ghost function Record(f: Facet): (r: seq<Byte>)
    requires Writable(f)
    ensures |r| == 50
  {
    PackVec(f.normal) + PackVec(f.vertices[0]) + PackVec(f.vertices[1]) + PackVec(f.vertices[2]) + [0, 0]
  }

  ghost function Records(facets: seq<Facet>): (r: seq<Byte>)
    requires forall k :: 0 <= k < |facets| ==> Writable(facets[k])
  {
    if facets == [] then [] else Records(facets[..|facets| - 1]) + Record(facets[|facets| - 1])
  }

  lemma Regroup<T>(a: seq<T>, b: seq<T>, c: seq<T>, d: seq<T>, e: seq<T>)
    ensures a + (b + (c + (d + (e + [])))) == a + b + c + d + e
  {
    assert e + [] == e;
  }

  lemma FacetFits(f: Facet)
    requires |f.vertices| == 3 && AllFit(ChunksOf(f))
    ensures Writable(f)
  {
    var c := ChunksOf(f);
    assert c[0] in c && c[1] in c && c[2] in c && c[3] in c;
  }

  lemma FiveChunks(f: Facet)
    requires |f.vertices| == 3
    ensures ChunksOf(f)
         == [Triple(f.normal)] + ([Triple(f.vertices[0])] + ([Triple(f.vertices[1])]
            + ([Triple(f.vertices[2])] + ([Attribute] + []))))
  {
  }

  lemma PackedRecord(f: Facet)
    requires |f.vertices| == 3 && AllFit(ChunksOf(f))
    ensures Writable(f) && Packed(ChunksOf(f)) == Record(f)
  {
    FacetFits(f);
    FiveChunks(f);
    NothingPacked();
    var vs := f.vertices;
    var c4 := [Attribute] + [];
    var c3 := [Triple(vs[2])] + c4;
    var c2 := [Triple(vs[1])] + c3;
    var c1 := [Triple(vs[0])] + c2;
    hide Packed, PackVec, ChunksOf, AllFit;
    PackedFirst(Attribute, []);
    PackedFirst(Triple(vs[2]), c4);
    PackedFirst(Triple(vs[1]), c3);
    PackedFirst(Triple(vs[0]), c2);
    PackedFirst(Triple(f.normal), c1);
    Regroup(PackVec(f.normal), PackVec(vs[0]), PackVec(vs[1]), PackVec(vs[2]), Pack(Attribute));
  }

  lemma PackedFirst(c: Chunk, rest: seq<Chunk>)
    requires ChunkFits(c)
    ensures Packed([c] + rest) == Pack(c) + Packed(rest)
  {
    assert ([c] + rest)[1..] == rest;
  }

  lemma AllFitParts(a: seq<Chunk>, b: seq<Chunk>)
    ensures AllFit(a + b) <==> AllFit(a) && AllFit(b)
  {
    assert forall c :: c in a || c in b <==> c in a + b;
  }

  lemma {:induction false} PackedRecords(facets: seq<Facet>)
    requires forall k :: 0 <= k < |facets| ==> |facets[k].vertices| == 3
    requires AllFit(Chunks(facets))
    ensures forall k :: 0 <= k < |facets| ==> Writable(facets[k])
    ensures Packed(Chunks(facets)) == Records(facets)
  {
    hide ChunksOf, Record, Writable, Packed, AllFit;
    if facets == [] {
      NothingPacked();
    } else {
      var n := |facets| - 1;
      var front, last := Chunks(facets[..n]), ChunksOf(facets[n]);
      AllFitParts(front, last);
      PackedRecords(facets[..n]);
      PackedRecord(facets[n]);
      PackedConcat(front, last);
      assert forall k :: 0 <= k < n ==> facets[..n][k] == facets[k];
    }
  }

  lemma ReadPacked(w: Word, bytes: seq<Byte>, at: nat)
    requires at + 4 <= |bytes| && bytes[at..at + 4] == Pack32(w)
    ensures Read32(bytes, at) == w
  {
    var packed := Pack32(w);
    assert forall i :: 0 <= i < 4 ==> bytes[at + i] == packed[i];
    assert bytes[at] == packed[0] && bytes[at + 1] == packed[1];
    assert bytes[at + 2] == packed[2] && bytes[at + 3] == packed[3];
    Digits(w);
  }

  lemma Digits(w: Word)
    ensures w == w % 0x100 + 0x100 * (w / 0x100 % 0x100) + 0x1_0000 * (w / 0x1_0000 % 0x100)
                 + 0x100_0000 * (w / 0x100_0000)
  {
    assert w / 0x100 / 0x100 == w / 0x1_0000;
    assert w / 0x1_0000 / 0x100 == w / 0x100_0000;
  }

  lemma SliceOfSlice(bytes: seq<Byte>, at: nat, piece: seq<Byte>, i: nat, j: nat)
    requires at + |piece| <= |bytes| && bytes[at..at + |piece|] == piece && i <= j <= |piece|
    ensures bytes[at + i..at + j] == piece[i..j]
  {
    forall k | i <= k < j
      ensures bytes[at + k] == piece[k]
    {
      assert bytes[at..at + |piece|][k] == bytes[at + k];
    }
  }

  lemma ReadPackedVec(v: Vec, bytes: seq<Byte>, at: nat)
    requires VecFits(v) && at + 12 <= |bytes| && bytes[at..at + 12] == PackVec(v)
    ensures ReadVec(bytes, at) == v
  {
    hide Pack32, Read32;
    var packed := PackVec(v);
    SliceOfSlice(bytes, at, packed, 0, 4);
    SliceOfSlice(bytes, at, packed, 4, 8);
    SliceOfSlice(bytes, at, packed, 8, 12);
    assert packed[0..4] == Pack32(v.x.bits) && packed[4..8] == Pack32(v.y.bits) && packed[8..12] == Pack32(v.z.bits);
    ReadPacked(v.x.bits, bytes, at);
    ReadPacked(v.y.bits, bytes, at + 4);
    ReadPacked(v.z.bits, bytes, at + 8);
  }

  lemma ReadRecord(f: Facet, bytes: seq<Byte>, at: nat)
    requires Writable(f) && at + 50 <= |bytes| && bytes[at..at + 50] == Record(f)
    ensures ReadFacet(bytes, at) == f
  {
    hide PackVec, ReadVec;
    var record := Record(f);
    SliceOfSlice(bytes, at, record, 0, 12);
    SliceOfSlice(bytes, at, record, 12, 24);
    SliceOfSlice(bytes, at, record, 24, 36);
    SliceOfSlice(bytes, at, record, 36, 48);
    assert record[0..12] == PackVec(f.normal) && record[12..24] == PackVec(f.vertices[0]);
    assert record[24..36] == PackVec(f.vertices[1]) && record[36..48] == PackVec(f.vertices[2]);
    ReadPackedVec(f.normal, bytes, at);
    ReadPackedVec(f.vertices[0], bytes, at + 12);
    ReadPackedVec(f.vertices[1], bytes, at + 24);
    ReadPackedVec(f.vertices[2], bytes, at + 36);
    assert [f.vertices[0], f.vertices[1], f.vertices[2]] == f.vertices;
  }

  // Record i of the body occupies the fifty bytes from 50 i.
  lemma {:induction false} RecordAt(facets: seq<Facet>, i: nat)
    requires forall k :: 0 <= k < |facets| ==> Writable(facets[k])
    ensures |Records(facets)| == 50 * |facets|
    ensures i < |facets| ==> Records(facets)[50 * i..50 * i + 50] == Record(facets[i])
  {
    hide Record;
    if facets != [] {
      var front := facets[..|facets| - 1];
      RecordAt(front, i);
      var body := Records(facets);
      assert body[..50 * |front|] == Records(front);
      if i < |front| {
        assert body[50 * i..50 * i + 50] == Records(front)[50 * i..50 * i + 50];
      }
    }
  }

  // Reading back what was written gives the facets, in order, from a file of
  // exactly 84 + 50 n bytes.
  lemma {:induction false} DecodeEncoded(facets: seq<Facet>)
    requires |facets| < 0x1_0000_0000
    requires forall k :: 0 <= k < |facets| ==> Writable(facets[k])
    ensures var bytes := Header() + Pack32(|facets|) + Records(facets);
            |bytes| == 84 + 50 * |facets| && Decode(bytes) == Some(facets)
  {
    hide Header, Pack32, Read32, Records, Record, ReadFacet;
    var n := |facets|;
    var body := Records(facets);
    var bytes := Header() + Pack32(n) + body;
    RecordAt(facets, n);
    assert bytes[80..80 + 4] == Pack32(n);
    ReadPacked(n, bytes, 80);
    forall i: nat | i < n
      ensures ReadFacet(bytes, 84 + 50 * i) == facets[i]
    {
      RecordAt(facets, i);
      var at := 84 + 50 * i;
      assert bytes[at..at + 50] == body[50 * i..50 * i + 50];
      ReadRecord(facets[i], bytes, at);
    }
    assert Decode(bytes).value == facets;
  }
}
