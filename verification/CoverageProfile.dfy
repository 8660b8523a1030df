// Reading a coverage profile: duplicate blocks are merged, and layers add up.

module CoverageProfile {
  import opened Options
  import Substitution

  /** One line after the mode line; a number is absent when it does not fit 64 bits. */
  datatype Line = BadSyntax | Entry(file: string, span: string, total: Option<nat>, count: Option<nat>)

  datatype Key = Key(file: string, span: string)

  datatype Block = Block(layer: string, covered: bool, total: nat)

  type Blocks = map<Key, Block>

  datatype Stats = Stats(total: nat, covered: nat)

  datatype Report = Report(internal: Stats, layers: map<string, Stats>)

  /** internalLayer: the layer of a file, if it belongs to an internal package. */
  type Layering = string -> Option<string>

  // ----- what a profile means

  predicate Internal(layer: Layering, l: Line) { l.Entry? && layer(l.file).Some? }

  predicate Readable(layer: Layering, l: Line)
  {
    l.Entry? && (layer(l.file).Some? ==> l.total.Some? && l.count.Some?)
  }

  predicate IsFor(layer: Layering, l: Line, k: Key)
  {
    Internal(layer, l) && Key(l.file, l.span) == k
  }

  ghost predicate Consistent(layer: Layering, lines: seq<Line>)
  {
    && (forall l :: l in lines ==> Readable(layer, l))
    && (forall a, b, k :: a in lines && b in lines && IsFor(layer, a, k) && IsFor(layer, b, k) ==> a.total == b.total)
  }

  /** A block is covered when any of its lines was executed. */
  ghost predicate BlockMerged(layer: Layering, lines: seq<Line>, blocks: Blocks, k: Key)
  {
    && (k in blocks <==> exists l :: l in lines && IsFor(layer, l, k))
    && (k in blocks ==>
          && layer(k.file) == Some(blocks[k].layer)
          && (forall l :: l in lines && IsFor(layer, l, k) ==> l.total == Some(blocks[k].total))
          && (blocks[k].covered <==>
                exists l :: l in lines && IsFor(layer, l, k) && l.count.Some? && l.count.value > 0))
  }

  ghost predicate Merged(layer: Layering, lines: seq<Line>, blocks: Blocks)
  {
    forall k :: BlockMerged(layer, lines, blocks, k)
  }

  ghost predicate Accepted(layer: Layering, lines: seq<Line>)
  {
    Consistent(layer, lines) && exists l :: l in lines && Internal(layer, l)
  }

  // ----- sums over maps

  datatype Measure = All | Covered | InLayer(layer: string) | CoveredInLayer(layer: string)

  function Weigh(b: Block, m: Measure): nat
  {
    match m
    case All => b.total
    case Covered => if b.covered then b.total else 0
    case InLayer(l) => if b.layer == l then b.total else 0
    case CoveredInLayer(l) => if b.layer == l && b.covered then b.total else 0
  }

  ghost function Sum(blocks: Blocks, m: Measure): nat
    decreases |blocks|
  {
    if blocks == map[] then 0
    else
      var k :| k in blocks;
      Weigh(blocks[k], m) + Sum(blocks - {k}, m)
  }

  /** A sum does not depend on the order of summation. */
  lemma {:induction false} SumRemove(blocks: Blocks, k: Key, m: Measure)
    requires k in blocks
    ensures Sum(blocks, m) == Weigh(blocks[k], m) + Sum(blocks - {k}, m)
    decreases |blocks|
  {
    var j :| j in blocks && Sum(blocks, m) == Weigh(blocks[j], m) + Sum(blocks - {j}, m);
    if j != k {
      SumRemove(blocks - {j}, k, m);
      SumRemove(blocks - {k}, j, m);
      assert blocks - {j} - {k} == blocks - {k} - {j};
    }
  }

  function Plus(a: Stats, b: Stats): Stats { Stats(a.total + b.total, a.covered + b.covered) }

  ghost function SumStats(layers: map<string, Stats>): Stats
    decreases |layers|
  {
    if layers == map[] then Stats(0, 0)
    else
      var l :| l in layers;
      Plus(layers[l], SumStats(layers - {l}))
  }

  lemma PlusSwaps(a: Stats, b: Stats, rest: Stats)
    ensures Plus(a, Plus(b, rest)) == Plus(b, Plus(a, rest))
    ensures Plus(Plus(a, b), rest) == Plus(Plus(a, rest), b)
  {}

  lemma {:induction false} SumStatsRemove(layers: map<string, Stats>, l: string)
    requires l in layers
    ensures SumStats(layers) == Plus(layers[l], SumStats(layers - {l}))
    decreases |layers|
  {
    var j :| j in layers && SumStats(layers) == Plus(layers[j], SumStats(layers - {j}));
    if j != l {
      var rest := SumStats(layers - {j} - {l});
      calc {
        SumStats(layers);
        Plus(layers[j], SumStats(layers - {j}));
        { SumStatsRemove(layers - {j}, l); }
        Plus(layers[j], Plus(layers[l], rest));
        { PlusSwaps(layers[j], layers[l], rest); }
        Plus(layers[l], Plus(layers[j], rest));
        { assert layers - {j} - {l} == layers - {l} - {j}; SumStatsRemove(layers - {l}, j); }
        Plus(layers[l], SumStats(layers - {l}));
      }
    }
  }

  function At(layers: map<string, Stats>, l: string): Stats
  {
    if l in layers then layers[l] else Stats(0, 0)
  }

  lemma SumStatsPut(layers: map<string, Stats>, l: string, v: Stats)
    ensures SumStats(layers[l := v]) == Plus(v, SumStats(layers - {l}))
  {
    SumStatsRemove(layers[l := v], l);
    assert layers[l := v] - {l} == layers - {l};
  }

  lemma SumStatsAt(layers: map<string, Stats>, l: string)
    ensures SumStats(layers) == Plus(At(layers, l), SumStats(layers - {l}))
  {
    if l in layers {
      SumStatsRemove(layers, l);
    } else {
      assert layers - {l} == layers;
    }
  }

  lemma SumStatsAdd(layers: map<string, Stats>, l: string, d: Stats)
    ensures SumStats(layers[l := Plus(At(layers, l), d)]) == Plus(SumStats(layers), d)
  {
    var rest := SumStats(layers - {l});
    calc {
      SumStats(layers[l := Plus(At(layers, l), d)]);
      { SumStatsPut(layers, l, Plus(At(layers, l), d)); }
      Plus(Plus(At(layers, l), d), rest);
      { PlusSwaps(At(layers, l), d, rest); }
      Plus(Plus(At(layers, l), rest), d);
      { SumStatsAt(layers, l); }
      Plus(SumStats(layers), d);
    }
  }

  ghost function LayersOf(blocks: Blocks): set<string> { set k | k in blocks :: blocks[k].layer }

  ghost predicate Reports(blocks: Blocks, r: Report)
  {
    && r.internal == Stats(Sum(blocks, All), Sum(blocks, Covered))
    && r.layers.Keys == LayersOf(blocks)
    && forall l :: LayerReported(blocks, r.layers, l)
  }

  // ----- parseCoverageProfile

  method MergeLines(layer: Layering, lines: seq<Line>) returns (blocks: Option<Blocks>)
    ensures blocks.Some? <==> Consistent(layer, lines)
    ensures blocks.Some? ==> Merged(layer, lines, blocks.value)
  {
    var merged: Blocks := map[];
    for i := 0 to |lines|
      invariant Consistent(layer, lines[..i]) && Merged(layer, lines[..i], merged)
    {
      var l := lines[i];
      assert l in lines && lines[..i + 1] == lines[..i] + [l];
      if !Readable(layer, l) {
        return None;
      }
      if layer(l.file).Some? {
        var k := Key(l.file, l.span);
        assert IsFor(layer, l, k) && BlockMerged(layer, lines[..i], merged, k);
        if k in merged && merged[k].total != l.total.value {
          Contradicts(layer, lines, i, merged, k);
          return None;
        }
        MergeOne(layer, lines[..i], l, merged, k);
        merged := merged[k := Joined(layer, merged, l, k)];
      } else {
        SkipOne(layer, lines[..i], l, merged);
      }
    }
    assert lines[..|lines|] == lines;
    return Some(merged);
  }

  function Joined(layer: Layering, merged: Blocks, l: Line, k: Key): Block
    requires IsFor(layer, l, k) && Readable(layer, l)
  {
    if k in merged then merged[k].(covered := merged[k].covered || l.count.value > 0)
    else Block(layer(l.file).value, l.count.value > 0, l.total.value)
  }

  lemma Contradicts(layer: Layering, lines: seq<Line>, i: nat, merged: Blocks, k: Key)
    requires i < |lines| && IsFor(layer, lines[i], k) && Readable(layer, lines[i])
    requires BlockMerged(layer, lines[..i], merged, k) && k in merged && merged[k].total != lines[i].total.value
    ensures !Consistent(layer, lines)
  {
    var l :| l in lines[..i] && IsFor(layer, l, k);
    assert l in lines && lines[i] in lines && l.total != lines[i].total;
  }

  lemma MergeOne(layer: Layering, lines: seq<Line>, l: Line, merged: Blocks, k: Key)
    requires Consistent(layer, lines) && Merged(layer, lines, merged)
    requires IsFor(layer, l, k) && Readable(layer, l) && (k in merged ==> merged[k].total == l.total.value)
    ensures Consistent(layer, lines + [l]) && Merged(layer, lines + [l], merged[k := Joined(layer, merged, l, k)])
  {
    var more := lines + [l];
    assert l in more && forall x :: x in more <==> x in lines || x == l;
    assert BlockMerged(layer, lines, merged, k);
    forall x | x in lines && IsFor(layer, x, k) ensures x.total == l.total {
    }
    var next := merged[k := Joined(layer, merged, l, k)];
    forall j ensures BlockMerged(layer, more, next, j) {
      assert BlockMerged(layer, lines, merged, j);
    }
  }

  lemma SkipOne(layer: Layering, lines: seq<Line>, l: Line, merged: Blocks)
    requires Consistent(layer, lines) && Merged(layer, lines, merged) && !Internal(layer, l) && Readable(layer, l)
    ensures Consistent(layer, lines + [l]) && Merged(layer, lines + [l], merged)
  {
    var more := lines + [l];
    assert forall x :: x in more <==> x in lines || x == l;
    forall j ensures BlockMerged(layer, more, merged, j) {
      assert BlockMerged(layer, lines, merged, j);
    }
  }

  method BuildReport(blocks: Blocks) returns (r: Report)
    ensures Reports(blocks, r) && SumStats(r.layers) == r.internal
  {
    r := Report(Stats(0, 0), map[]);
    var todo := blocks.Keys;
    ghost var done: Blocks := map[];
    while todo != {}
      invariant todo <= blocks.Keys && done == blocks - todo
      invariant Reports(done, r) && SumStats(r.layers) == r.internal
      decreases |todo|
    {
      var k :| k in todo;
      var b := blocks[k];
      var d := Gain(b);
      ReportOne(done, r, k, b);
      SumStatsAdd(r.layers, b.layer, d);
      r := Report(Plus(r.internal, d), r.layers[b.layer := Plus(At(r.layers, b.layer), d)]);
      done := done[k := b];
      todo := todo - {k};
    }
    assert done == blocks;
  }

  lemma SumAdd(done: Blocks, k: Key, b: Block, m: Measure)
    requires k !in done
    ensures Sum(done[k := b], m) == Sum(done, m) + Weigh(b, m)
  {
    SumRemove(done[k := b], k, m);
    assert done[k := b] - {k} == done;
  }

  function Gain(b: Block): Stats { Stats(b.total, if b.covered then b.total else 0) }

  ghost predicate LayerReported(blocks: Blocks, layers: map<string, Stats>, l: string)
  {
    At(layers, l) == Stats(Sum(blocks, InLayer(l)), Sum(blocks, CoveredInLayer(l)))
  }

  lemma LayerOne(done: Blocks, layers: map<string, Stats>, k: Key, b: Block, l: string)
    requires k !in done && LayerReported(done, layers, l)
    ensures LayerReported(done[k := b], layers[b.layer := Plus(At(layers, b.layer), Gain(b))], l)
  {
    SumAdd(done, k, b, InLayer(l));
    SumAdd(done, k, b, CoveredInLayer(l));
  }

  lemma ReportOne(done: Blocks, r: Report, k: Key, b: Block)
    requires k !in done && Reports(done, r)
    ensures Reports(done[k := b], Report(Plus(r.internal, Gain(b)),
                                         r.layers[b.layer := Plus(At(r.layers, b.layer), Gain(b))]))
  {
    SumAdd(done, k, b, All);
    SumAdd(done, k, b, Covered);
    LayersOne(done, k, b);
    var more, layers := done[k := b], r.layers[b.layer := Plus(At(r.layers, b.layer), Gain(b))];
    forall l ensures LayerReported(more, layers, l) {
      LayerOne(done, r.layers, k, b, l);
    }
  }

  lemma LayersOne(done: Blocks, k: Key, b: Block)
    requires k !in done
    ensures LayersOf(done[k := b]) == LayersOf(done) + {b.layer}
  {
    var more := done[k := b];
    assert k in more && more[k].layer == b.layer;
    forall l | l in LayersOf(done) ensures l in LayersOf(more) {
      var j :| j in done && done[j].layer == l;
      assert j in more && more[j].layer == l;
    }
  }

  const MODULE_PREFIX := "github.com/kubebao/openbao-operator/internal/"

  /** The part before the first slash, if there is a slash. */
  function Cut(s: string): Option<string>
  {
    if s == "" then None
    else if s[0] == '/' then Some("")
    else
      var rest := Cut(s[1..]);
      if rest.None? then None else Some([s[0]] + rest.value)
  }

  /** internalLayer: the first directory below internal, or "root" for a file directly in it. */
  function InternalLayer(file: string): (layer: Option<string>)
    ensures layer.Some? ==> layer.value != ""
  {
    var path := Substitution.ReplaceAll(file, "\\", "/");
    if MODULE_PREFIX <= path then LayerBelow(path[|MODULE_PREFIX|..])
    else if "internal/" <= path then LayerBelow(path[|"internal/"|..])
    else None
  }

  function LayerBelow(path: string): (layer: Option<string>)
    ensures layer.Some? ==> layer.value != ""
  {
    var first := Cut(path);
    if path == "" || first == Some("") then None else if first.None? then Some("root") else first
  }

  predicate KnownMode(header: string)
  {
    var mode := if "mode: " <= header then header[|"mode: "|..] else header;
    mode in {"set", "count", "atomic"}
  }

  /** parseCoverageProfile: the mode line, if any, the lines after it, and whether reading fails. */
  method ParseCoverageProfile(header: Option<string>, lines: seq<Line>, readFails: bool)
    returns (report: Option<Report>, ghost blocks: Blocks)
    ensures report.Some? <==> header.Some? && KnownMode(header.value) && !readFails && Accepted(InternalLayer, lines)
    ensures report.Some? ==>
      && Merged(InternalLayer, lines, blocks) && Reports(blocks, report.value)
      && SumStats(report.value.layers) == report.value.internal
  {
    blocks := map[];
    if header.None? || !KnownMode(header.value) {
      return None, blocks;
    }
    var merged := MergeLines(InternalLayer, lines);
    if merged.None? || readFails {
      return None, blocks;
    }
    blocks := merged.value;
    SomeInternalIff(InternalLayer, lines, blocks);
    if merged.value == map[] {
      return None, blocks;
    }
    var r := BuildReport(merged.value);
    return Some(r), blocks;
  }

  lemma SomeInternalIff(layer: Layering, lines: seq<Line>, blocks: Blocks)
    requires Merged(layer, lines, blocks)
    ensures blocks != map[] <==> exists l :: l in lines && Internal(layer, l)
  {
    if l :| l in lines && Internal(layer, l) {
      assert IsFor(layer, l, Key(l.file, l.span));
      assert BlockMerged(layer, lines, blocks, Key(l.file, l.span));
    }
    if k :| k in blocks {
      assert BlockMerged(layer, lines, blocks, k);
    }
  }

  // ----- order and repetition do not matter

  ghost predicate SameLines(a: seq<Line>, b: seq<Line>)
  {
    forall l :: l in a <==> l in b
  }

  lemma MergeIsUnique(layer: Layering, a: seq<Line>, b: seq<Line>, x: Blocks, y: Blocks)
    requires SameLines(a, b) && Merged(layer, a, x) && Merged(layer, b, y)
    ensures x == y
  {
    forall k ensures (k in x <==> k in y) && (k in x ==> x[k] == y[k]) {
      assert BlockMerged(layer, a, x, k) && BlockMerged(layer, b, y, k);
      if l :| l in a && IsFor(layer, l, k) {
        assert l in b && l.total == Some(x[k].total) == Some(y[k].total);
      }
    }
  }

  lemma ReportIsUnique(blocks: Blocks, r: Report, s: Report)
    requires Reports(blocks, r) && Reports(blocks, s)
    ensures r == s
  {
    forall l | l in r.layers ensures r.layers[l] == s.layers[l] {
      assert LayerReported(blocks, r.layers, l) && LayerReported(blocks, s.layers, l);
    }
  }

  /**
   * Profiles with the same lines, in any order and any number of times, are accepted or
   * rejected alike and yield the same report.
   */
  lemma OnlyTheLinesMatter(layer: Layering, a: seq<Line>, b: seq<Line>, x: Blocks, y: Blocks, r: Report, s: Report)
    requires SameLines(a, b)
    ensures Accepted(layer, a) <==> Accepted(layer, b)
    ensures Merged(layer, a, x) && Reports(x, r) && Merged(layer, b, y) && Reports(y, s) ==> r == s
  {
    if Merged(layer, a, x) && Reports(x, r) && Merged(layer, b, y) && Reports(y, s) {
      MergeIsUnique(layer, a, b, x, y);
      ReportIsUnique(x, r, s);
    }
  }

  /** A profile followed by its own lines is the same profile. */
  lemma RepetitionIsHarmless(layer: Layering, lines: seq<Line>, x: Blocks, y: Blocks, r: Report, s: Report)
    ensures Accepted(layer, lines + lines) <==> Accepted(layer, lines)
    ensures Merged(layer, lines + lines, x) && Reports(x, r) && Merged(layer, lines, y) && Reports(y, s) ==> r == s
  {
    OnlyTheLinesMatter(layer, lines + lines, lines, x, y, r, s);
  }

  lemma {:induction false} CoveredAtMost(blocks: Blocks, m: Measure, n: Measure)
    requires forall k :: k in blocks ==> Weigh(blocks[k], m) <= Weigh(blocks[k], n)
    ensures Sum(blocks, m) <= Sum(blocks, n)
    decreases |blocks|
  {
    if blocks != map[] {
      var k :| k in blocks;
      SumRemove(blocks, k, m);
      SumRemove(blocks, k, n);
      CoveredAtMost(blocks - {k}, m, n);
    }
  }

  lemma CoveredWithinTotal(blocks: Blocks, r: Report, l: string)
    requires Reports(blocks, r)
    ensures r.internal.covered <= r.internal.total && At(r.layers, l).covered <= At(r.layers, l).total
  {
    CoveredAtMost(blocks, Covered, All);
    CoveredAtMost(blocks, CoveredInLayer(l), InLayer(l));
    assert LayerReported(blocks, r.layers, l);
  }
}
