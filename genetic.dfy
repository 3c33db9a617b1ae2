/** The hyper-parameter driver (genetic.py): a genome is a string of
    binary digits cut into genes, each gene read as a number and turned
    into one command-line flag of the solver. Genomes are bred from the
    best evaluated ones by mutation and crossover, using the same linear
    congruential generator as the piece sequence. */
module Genetic {
  import opened Decimal
  import Lcg
  import Bits
  import Search

  // ---------------------------------------------------------------------
  // Genes

  /** The three ways a gene's number becomes the text of a flag. */
  datatype Calc = IntRange(lo: int, hi: int) | FloatRange(flo: real, fhi: real) | Choice(choices: seq<string>)

  /** Gene: its width in bits, its starting value, its flag name and how
      its number is turned into text. */
  datatype Gene = Gene(bits: nat, initial: nat, name: string, rule: Calc)

  /** int_range_calc(lo, hi)(x, bits): lo + (hi - lo) * x // 2^bits.
      Python's // floors; so does Dafny's / by a positive divisor. */
  function IntRangeValue(lo: int, hi: int, x: nat, bits: nat): int
  {
    lo + (hi - lo) * x / Bits.Pow2(bits)
  }

  /** For a number of `bits` bits, int_range_calc lands in [lo, hi). */
  lemma {:induction false} IntRangeBounds(lo: int, hi: int, x: nat, bits: nat)
    requires lo < hi && x < Bits.Pow2(bits)
    ensures lo <= IntRangeValue(lo, hi, x, bits) < hi
  {
    var d, p := hi - lo, Bits.Pow2(bits);
    MulBelow(d, x, p);
    DivBelow(d * x, d, p);
  }

  lemma {:induction false} MulBelow(d: nat, x: nat, p: nat)
    requires d > 0 && x < p
    ensures 0 <= d * x < d * p
  {
    assert d * p == d * x + d * (p - x);
  }

  lemma {:induction false} DivBelow(a: nat, d: nat, p: nat)
    requires p > 0 && a < d * p
    ensures 0 <= a / p < d
  {
    var q := a / p;
    assert a == q * p + a % p;
    assert q < d;
  }

  /** The number float_range_calc(lo, hi)(x, bits) prints with three
      decimals. */
  function FloatRangeValue(lo: real, hi: real, x: nat, bits: nat): real
  {
    lo + (hi - lo) * (x as real) / (Bits.Pow2(bits) as real)
  }

  /** For a number of `bits` bits, float_range_calc lands in [lo, hi). */
  lemma {:induction false} FloatRangeBounds(lo: real, hi: real, x: nat, bits: nat)
    requires lo < hi && x < Bits.Pow2(bits)
    ensures lo <= FloatRangeValue(lo, hi, x, bits) < hi
  {
    var d, p, y := hi - lo, Bits.Pow2(bits) as real, x as real;
    RealDivBelow(d * y, d, p);
  }

  lemma {:induction false} RealDivBelow(z: real, d: real, p: real)
    requires 0.0 <= z < d * p && p > 0.0
    ensures 0.0 <= z / p < d
  {
    var f := z / p;
    assert f * p == z;
    assert (d - f) * p == d * p - z;
  }

  /** choice_calc(choices)(x, bits): choices[x % 2^bits]; None where
      Python raises IndexError. */
  function ChoiceValue(choices: seq<string>, x: nat, bits: nat): (r: Option<string>)
    ensures r.Some? <==> x % Bits.Pow2(bits) < |choices|
    ensures r.Some? ==> r.value in choices
  {
    var k := x % Bits.Pow2(bits);
    if k < |choices| then Some(choices[k]) else None
  }

  /** gene.calc(x, bits): the text of the flag's value. Floating-point
      formatting is the `format` parameter. */
  function GeneText(g: Gene, x: nat, format: real -> string): Option<string>
  {
    match g.rule
    case IntRange(lo, hi) => Some(IntToString(IntRangeValue(lo, hi, x, g.bits)))
    case FloatRange(lo, hi) => Some(format(FloatRangeValue(lo, hi, x, g.bits)))
    case Choice(choices) => ChoiceValue(choices, x, g.bits)
  }

  /** GENE_LIST. */
  const GeneList: seq<Gene> := [
    Gene(2, 0, "total_keep", IntRange(9041, 10000)),
    Gene(4, 8, "score_keep_ratio", FloatRange(0.153, 0.173)),
    Gene(4, 8, "score_height_quota", FloatRange(0.20, 0.22)),
    Gene(4, 8, "quality_height_quota", FloatRange(0.345, 0.365)),
    Gene(4, 8, "ignore_score_threshold", IntRange(2100, 2300)),
    Gene(4, 8, "quality_row_transition_penalty", IntRange(428, 468)),
    Gene(4, 0, "quality_col_transition_penalty", IntRange(0, 200)),
    Gene(4, 8, "quality_empty_penalty", IntRange(1030, 1130)),
    Gene(4, 0, "quality_empty_penalty2", IntRange(0, 100))
  ]

  /** The sum of the gene widths. */
  function TotalBits(genes: seq<Gene>): nat
  {
    if |genes| == 0 then 0 else TotalBits(genes[..|genes| - 1]) + genes[|genes| - 1].bits
  }

  /** The widths of a prefix add up to no more than the total. */
  lemma {:induction false} PrefixBits(genes: seq<Gene>, k: nat)
    requires k < |genes|
    ensures TotalBits(genes[..k + 1]) == TotalBits(genes[..k]) + genes[k].bits
    ensures TotalBits(genes[..k + 1]) <= TotalBits(genes)
    decreases |genes|
  {
    assert genes[..k + 1][..k] == genes[..k];
    var n := |genes| - 1;
    if k < n {
      PrefixBits(genes[..n], k);
      assert genes[..n][..k] == genes[..k];
      assert genes[..n][..k + 1] == genes[..k + 1];
    } else {
      assert genes[..k + 1] == genes;
    }
  }

  /** Where gene k's digits start: `off` in genome_to_params. */
  function Offset(genes: seq<Gene>, k: nat): (r: nat)
    requires k <= |genes|
    ensures r <= TotalBits(genes)
    ensures k < |genes| ==> r + genes[k].bits <= TotalBits(genes)
  {
    if k < |genes| then
      PrefixBits(genes, k);
      TotalBits(genes[..k])
    else
      assert genes[..k] == genes;
      TotalBits(genes[..k])
  }

  /** The digits of gene k. */
  function GeneSlice(genes: seq<Gene>, genome: string, k: nat): (s: string)
    requires k < |genes| && |genome| == TotalBits(genes)
    ensures |s| == genes[k].bits
  {
    genome[Offset(genes, k)..Offset(genes, k) + genes[k].bits]
  }

  /** GENOME_BITS: 34. */
  const GenomeBits: nat := 34

  lemma {:induction false} GenomeBitsValue()
    ensures TotalBits(GeneList) == GenomeBits
  {
    var g := GeneList;
    assert g[..0] == [];
    PrefixBits(g, 0);
    PrefixBits(g, 1);
    PrefixBits(g, 2);
    PrefixBits(g, 3);
    PrefixBits(g, 4);
    PrefixBits(g, 5);
    PrefixBits(g, 6);
    PrefixBits(g, 7);
    PrefixBits(g, 8);
    assert g[..9] == g;
  }

  // ---------------------------------------------------------------------
  // Binary text

  predicate IsBinary(s: string)
  {
    forall i :: 0 <= i < |s| ==> s[i] == '0' || s[i] == '1'
  }

  /** int(s, 2) on a string of binary digits (genomes are always
      binary; any other digit is read as 0 here). */
  function BinaryValue(s: string): (v: nat)
    ensures v < Bits.Pow2(|s|)
  {
    if |s| == 0 then 0 else 2 * BinaryValue(s[..|s| - 1]) + (if s[|s| - 1] == '1' then 1 else 0)
  }

  /** A genome: binary text as long as the gene list. */
  predicate IsGenome(g: string)
  {
    |g| == GenomeBits && IsBinary(g)
  }

  // ---------------------------------------------------------------------
  // genome_to_params

  /** One flag: --name=value. */
  function Token(g: Gene, text: string): string
  {
    "--" + g.name + "=" + text
  }

  /** The text gene k gives for its own digits of the genome. */
  function GeneValue(genes: seq<Gene>, genome: string, format: real -> string, k: nat): Option<string>
    requires k < |genes| && |genome| == TotalBits(genes)
  {
    GeneText(genes[k], BinaryValue(GeneSlice(genes, genome, k)), format)
  }

  /** The text each gene gives for its own digits of the genome, in gene
      order. */
  function Texts(genes: seq<Gene>, genome: string, format: real -> string): (ts: seq<Option<string>>)
    requires |genome| == TotalBits(genes)
    ensures |ts| == |genes|
  {
    seq(|genes|, k requires 0 <= k < |genes| => GeneValue(genes, genome, format, k))
  }

  /** The flags from the genes' texts, one per gene in order; None when a
      text failed (an IndexError in choice_calc). */
  function Assemble(genes: seq<Gene>, texts: seq<Option<string>>): Option<seq<string>>
    requires |texts| == |genes|
  {
    if forall k :: 0 <= k < |genes| ==> texts[k].Some? then
      Some(seq(|genes|, k requires 0 <= k < |genes| => Token(genes[k], texts[k].value)))
    else
      None
  }

  /** The flags of a genome; they never fail without a choice gene. */
  function Params(genes: seq<Gene>, genome: string, format: real -> string): (r: Option<seq<string>>)
    requires |genome| == TotalBits(genes)
    ensures (forall k :: 0 <= k < |genes| ==> !genes[k].rule.Choice?) ==> r.Some?
  {
    Assemble(genes, Texts(genes, genome, format))
  }

  /** genome_to_params: the loop over the genes with the offset `off`,
      appending one flag per gene, then the flags joined by spaces. */
  method GenomeToParams(genes: seq<Gene>, genome: string, format: real -> string) returns (r: Option<string>)
    requires |genome| == TotalBits(genes) && IsBinary(genome)
    ensures r == (if Params(genes, genome, format).Some? then Some(Join(Params(genes, genome, format).value, ' ')) else None)
  {
    ghost var texts := Texts(genes, genome, format);
    var params: seq<string> := [];
    var off := 0;
    assert genes[..0] == [];
    for i := 0 to |genes|
      invariant off == Offset(genes, i)
      invariant FlagsUpTo(genes, texts, i, params)
    {
      var g := genes[i];
      var text := ReadGene(genes, genome, format, i, off);
      assert text == texts[i];
      if text.None? {
        AssembleFails(genes, texts, i);
        return None;
      }
      FlagsGrow(genes, texts, i, params, text.value);
      params := params + [Token(g, text.value)];
      off := off + g.bits;
    }
    AssembleAll(genes, texts, params);
    r := Some(Join(params, ' '));
  }

  /** One pass of genome_to_params' loop: the value of gene i's digits,
      which start at off, as text. */
  method ReadGene(genes: seq<Gene>, genome: string, format: real -> string, i: nat, off: nat)
    returns (text: Option<string>)
    requires i < |genes| && |genome| == TotalBits(genes) && off == Offset(genes, i)
    ensures text == GeneValue(genes, genome, format, i)
    ensures off + genes[i].bits == Offset(genes, i + 1)
  {
    PrefixBits(genes, i);
    var g := genes[i];
    var value := BinaryValue(genome[off..off + g.bits]);
    text := GeneText(g, value, format);
  }

  /** A gene whose text fails makes the flags fail. */
  lemma {:induction false} AssembleFails(genes: seq<Gene>, texts: seq<Option<string>>, i: nat)
    requires |texts| == |genes| && i < |genes| && texts[i].None?
    ensures Assemble(genes, texts).None?
  {
  }

  /** When every gene's text succeeds the flags are the tokens built one
      gene at a time. */
  lemma {:induction false} AssembleAll(genes: seq<Gene>, texts: seq<Option<string>>, params: seq<string>)
    requires |texts| == |genes| && FlagsUpTo(genes, texts, |genes|, params)
    ensures Assemble(genes, texts) == Some(params)
  {
    assert forall k :: 0 <= k < |genes| ==> texts[k].Some?;
    assert Assemble(genes, texts).value == params;
  }

  /** The flags of the first i genes are the first i flags. */
  ghost predicate FlagsUpTo(genes: seq<Gene>, texts: seq<Option<string>>, i: nat, params: seq<string>)
    requires i <= |genes| == |texts|
  {
    |params| == i &&
    forall k :: 0 <= k < i ==> texts[k].Some? && params[k] == Token(genes[k], texts[k].value)
  }

  lemma {:induction false} FlagsGrow(genes: seq<Gene>, texts: seq<Option<string>>, i: nat, params: seq<string>, t: string)
    requires i < |genes| == |texts|
    requires FlagsUpTo(genes, texts, i, params)
    requires texts[i] == Some(t)
    ensures FlagsUpTo(genes, texts, i + 1, params + [Token(genes[i], t)])
  {
    var p' := params + [Token(genes[i], t)];
    forall k | 0 <= k < i + 1
      ensures texts[k].Some? && p'[k] == Token(genes[k], texts[k].value)
    {
      if k < i {
        assert p'[k] == params[k];
      }
    }
  }

  /** A flag holds no space when the gene's name and value text hold
      none. */
  lemma {:induction false} TokenNoSpace(g: Gene, x: nat, format: real -> string)
    requires ' ' !in g.name && GeneText(g, x, format).Some?
    requires g.rule.Choice? ==> forall c :: c in g.rule.choices ==> ' ' !in c
    requires g.rule.FloatRange? ==> ' ' !in format(FloatRangeValue(g.rule.flo, g.rule.fhi, x, g.bits))
    ensures ' ' !in Token(g, GeneText(g, x, format).value)
  {
    var t := GeneText(g, x, format).value;
    if g.rule.IntRange? {
      var v := IntRangeValue(g.rule.lo, g.rule.hi, x, g.bits);
      NoSepInNumber(if v < 0 then -v else v, ' ');
      assert t == IntToString(v);
    }
    assert Token(g, t) == "--" + g.name + "=" + t;
  }

  /** Running splits the parameter text on spaces: when no gene name,
      choice or formatted number holds a space, that gives back exactly
      the flags genome_to_params joined. */
  lemma {:induction false} ParamsSplit(genes: seq<Gene>, genome: string, format: real -> string)
    requires |genome| == TotalBits(genes)
    requires |genes| >= 1 && Params(genes, genome, format).Some?
    requires forall k :: 0 <= k < |genes| ==> ' ' !in genes[k].name
    requires forall k, c :: 0 <= k < |genes| && genes[k].rule.Choice? && c in genes[k].rule.choices ==> ' ' !in c
    requires forall x: real :: ' ' !in format(x)
    ensures Split(Join(Params(genes, genome, format).value, ' '), ' ') == Params(genes, genome, format).value
  {
    var texts := Texts(genes, genome, format);
    var ts := Params(genes, genome, format).value;
    assert forall k :: 0 <= k < |genes| ==> texts[k].Some?;
    assert |ts| == |genes|;
    forall k | 0 <= k < |ts|
      ensures ' ' !in ts[k]
    {
      var x := BinaryValue(GeneSlice(genes, genome, k));
      assert texts[k] == GeneText(genes[k], x, format);
      assert ts[k] == Token(genes[k], texts[k].value);
      TokenNoSpace(genes[k], x, format);
    }
    SplitJoin(ts, ' ');
  }

  // ---------------------------------------------------------------------
  // Initial genomes

  /** The binary digits of n, without leading zeros ('0' for zero). */
  function Binary(n: nat): (s: string)
    ensures |s| >= 1 && IsBinary(s) && BinaryValue(s) == n
    ensures n < Bits.Pow2(|s|)
  {
    if n < 2 then [if n == 1 then '1' else '0']
    else
      var s := Binary(n / 2) + [if n % 2 == 1 then '1' else '0'];
      assert s[..|s| - 1] == Binary(n / 2);
      s
  }

  /** '{:0{}b}'.format(n, width): the binary digits of n padded on the
      left with zeros to at least `width` digits. */
  function PadBinary(n: nat, width: nat): (s: string)
  {
    var b := Binary(n);
    if |b| < width then Zeros(width - |b|) + b else b
  }

  function Zeros(k: nat): (s: string)
    ensures |s| == k && IsBinary(s) && BinaryValue(s) == 0
  {
    if k == 0 then [] else
      var s := Zeros(k - 1) + ['0'];
      assert s[..k - 1] == Zeros(k - 1);
      s
  }

  /** Leading zeros do not change the value of binary text. */
  lemma {:induction false} ZerosValue(k: nat, b: string)
    requires IsBinary(b)
    ensures IsBinary(Zeros(k) + b) && BinaryValue(Zeros(k) + b) == BinaryValue(b)
    decreases |b|
  {
    var s := Zeros(k) + b;
    if |b| > 0 {
      ZerosValue(k, b[..|b| - 1]);
      assert s[..|s| - 1] == Zeros(k) + b[..|b| - 1];
    } else {
      assert s == Zeros(k);
    }
  }

  /** A value below 2^width takes exactly `width` digits and reads back as
      itself. */
  lemma {:induction false} PadBinaryFits(n: nat, width: nat)
    requires n < Bits.Pow2(width) && width >= 1
    ensures |PadBinary(n, width)| == width
    ensures IsBinary(PadBinary(n, width)) && BinaryValue(PadBinary(n, width)) == n
  {
    var b := Binary(n);
    if |b| < width {
      ZerosValue(width - |b|, b);
      assert PadBinary(n, width) == Zeros(width - |b|) + b;
    } else {
      BinaryLength(n, width);
      assert PadBinary(n, width) == b;
    }
  }

  /** Binary(n) is no longer than any width n fits in. */
  lemma {:induction false} BinaryLength(n: nat, width: nat)
    requires n < Bits.Pow2(width) && width >= 1
    ensures |Binary(n)| <= width
    decreases n
  {
    if n >= 2 {
      assert width >= 2;
      BinaryLength(n / 2, width - 1);
    }
  }

  /** The initial genome: every gene's initial value in its own digits. */
  function InitialGenome(genes: seq<Gene>): string
  {
    if |genes| == 0 then ""
    else InitialGenome(genes[..|genes| - 1]) + PadBinary(genes[|genes| - 1].initial, genes[|genes| - 1].bits)
  }

  /** A gene's starting value fits its width. */
  predicate InitialFits(g: Gene)
  {
    g.bits >= 1 && g.initial < Bits.Pow2(g.bits)
  }

  /** The initial genome of the first k + 1 genes extends that of the
      first k by gene k's padded starting value. */
  lemma {:induction false} InitialGenomeStep(genes: seq<Gene>, k: nat)
    requires k < |genes|
    ensures InitialGenome(genes[..k + 1]) == InitialGenome(genes[..k]) + PadBinary(genes[k].initial, genes[k].bits)
  {
    assert genes[..k + 1][..k] == genes[..k];
  }

  /** When every starting value fits, the initial genome is a genome of
      the gene list's length whose gene k reads back as gene k's starting
      value. */
  lemma {:induction false} InitialGenomeGenes(genes: seq<Gene>)
    requires forall k :: 0 <= k < |genes| ==> InitialFits(genes[k])
    ensures |InitialGenome(genes)| == TotalBits(genes) && IsBinary(InitialGenome(genes))
    ensures forall k :: 0 <= k < |genes| ==> BinaryValue(GeneSlice(genes, InitialGenome(genes), k)) == genes[k].initial
    decreases |genes|
  {
    if |genes| > 0 {
      var n := |genes| - 1;
      InitialGenomeGenes(genes[..n]);
      InitialLength(genes);
      forall k | 0 <= k < |genes|
        ensures BinaryValue(GeneSlice(genes, InitialGenome(genes), k)) == genes[k].initial
      {
        if k < n {
          InitialSliceFront(genes, k);
        } else {
          InitialSliceLast(genes);
        }
      }
    }
  }

  /** Adding a gene whose starting value fits adds its width of binary
      digits. */
  lemma {:induction false} InitialLength(genes: seq<Gene>)
    requires |genes| > 0 && InitialFits(genes[|genes| - 1])
    requires |InitialGenome(genes[..|genes| - 1])| == TotalBits(genes[..|genes| - 1])
    requires IsBinary(InitialGenome(genes[..|genes| - 1]))
    ensures |InitialGenome(genes)| == TotalBits(genes) && IsBinary(InitialGenome(genes))
  {
    var n := |genes| - 1;
    PadBinaryFits(genes[n].initial, genes[n].bits);
    assert InitialGenome(genes) == InitialGenome(genes[..n]) + PadBinary(genes[n].initial, genes[n].bits);
  }

  /** The last gene's digits in the initial genome are its padded starting
      value. */
  lemma {:induction false} InitialSliceLast(genes: seq<Gene>)
    requires |genes| > 0 && InitialFits(genes[|genes| - 1])
    requires |InitialGenome(genes)| == TotalBits(genes)
    requires |InitialGenome(genes[..|genes| - 1])| == TotalBits(genes[..|genes| - 1])
    ensures BinaryValue(GeneSlice(genes, InitialGenome(genes), |genes| - 1)) == genes[|genes| - 1].initial
  {
    var n := |genes| - 1;
    PadBinaryFits(genes[n].initial, genes[n].bits);
    var front, last := InitialGenome(genes[..n]), PadBinary(genes[n].initial, genes[n].bits);
    assert InitialGenome(genes) == front + last;
    assert Offset(genes, n) == |front|;
    assert GeneSlice(genes, InitialGenome(genes), n) == last;
  }

  /** An earlier gene's digits are the same in the initial genome of the
      whole list and of the list without its last gene. */
  lemma {:induction false} InitialSliceFront(genes: seq<Gene>, k: nat)
    requires k < |genes| - 1 && InitialFits(genes[|genes| - 1])
    requires |InitialGenome(genes)| == TotalBits(genes)
    requires |InitialGenome(genes[..|genes| - 1])| == TotalBits(genes[..|genes| - 1])
    requires BinaryValue(GeneSlice(genes[..|genes| - 1], InitialGenome(genes[..|genes| - 1]), k)) == genes[k].initial
    ensures BinaryValue(GeneSlice(genes, InitialGenome(genes), k)) == genes[k].initial
  {
    var n := |genes| - 1;
    var front := InitialGenome(genes[..n]);
    InitialGenomeStep(genes, n);
    assert genes[..n + 1] == genes;
    assert InitialGenome(genes)[..|front|] == front;
    FrontSlice(genes[..n], genes, front, InitialGenome(genes), k);
  }

  /** Gene k's digits read the same from a genome and from its prefix
      that holds the genes up to the last. */
  lemma {:induction false} FrontSlice(front: seq<Gene>, genes: seq<Gene>, f: string, g: string, k: nat)
    requires |genes| > 0 && front == genes[..|genes| - 1] && k < |front|
    requires |f| == TotalBits(front) && |g| == TotalBits(genes) && |f| <= |g| && g[..|f|] == f
    ensures GeneSlice(front, f, k) == GeneSlice(genes, g, k)
  {
    assert front[..k] == genes[..k] && front[k] == genes[k];
    var o, w := Offset(front, k), genes[k].bits;
    assert o == Offset(genes, k);
    assert o + w <= |f|;
    var gs, fs := g[o..o + w], f[o..o + w];
    forall t | 0 <= t < w
      ensures gs[t] == fs[t]
    {
      assert g[o + t] == g[..|f|][o + t];
    }
    assert gs == fs;
  }

  /** GENE_LIST's starting values all fit. */
  lemma {:induction false} GeneListFits()
    ensures forall k :: 0 <= k < |GeneList| ==> InitialFits(GeneList[k])
  {
    assert Bits.Pow2(2) == 4 && Bits.Pow2(4) == 16;
  }

  /** not_: '0' becomes '1', anything else '0'. */
  function Not(c: char): (d: char)
    ensures c == '0' ==> d == '1'
    ensures c == '1' ==> d == '0'
  {
    if c == '0' then '1' else '0'
  }

  /** s[:j] + not_(s[j]) + s[j+1:]: digit j flipped, the rest kept. */
  function Flip(s: string, j: nat): (r: string)
    requires j < |s|
    ensures |r| == |s| && r[j] == Not(s[j])
    ensures forall k :: 0 <= k < |s| && k != j ==> r[k] == s[k]
    ensures IsBinary(s) ==> IsBinary(r)
  {
    s[..j] + [Not(s[j])] + s[j + 1..]
  }

  /** The two loops of get_initial_genomes for any gene list: the initial
      genome, then for every digit i < bits the initial genome with digit
      i flipped. */
  method InitialGenomesOf(genes: seq<Gene>, bits: nat) returns (res: seq<string>)
    requires bits <= |InitialGenome(genes)|
    ensures |res| == bits + 1 && res[0] == InitialGenome(genes)
    ensures forall i :: 0 <= i < bits ==> res[i + 1] == Flip(res[0], i)
  {
    var initial := "";
    for k := 0 to |genes|
      invariant initial == InitialGenome(genes[..k])
    {
      InitialGenomeStep(genes, k);
      initial := initial + PadBinary(genes[k].initial, genes[k].bits);
    }
    assert genes[..|genes|] == genes;
    res := [initial];
    for i := 0 to bits
      invariant |res| == i + 1 && res[0] == initial
      invariant forall k :: 0 <= k < i ==> res[k + 1] == Flip(initial, k)
    {
      res := res + [initial[..i] + [Not(initial[i])] + initial[i + 1..]];
    }
  }

  /** The initial genome of a gene list that fits is a genome. */
  lemma {:induction false} InitialGenomeLength(genes: seq<Gene>)
    requires GenesFit(genes)
    ensures |InitialGenome(genes)| == GenomeBits && IsBinary(InitialGenome(genes))
  {
    InitialGenomeGenes(genes);
  }

  /** For a gene list that fits the initial genomes are genomes. */
  lemma {:induction false} InitialGenomesAreGenomes(genes: seq<Gene>, res: seq<string>)
    requires GenesFit(genes)
    requires |res| == GenomeBits + 1 && res[0] == InitialGenome(genes)
    requires forall i :: 0 <= i < GenomeBits ==> |res[0]| > i && res[i + 1] == Flip(res[0], i)
    ensures forall i :: 0 <= i < |res| ==> IsGenome(res[i])
  {
    InitialGenomeLength(genes);
    forall i | 0 <= i < |res|
      ensures IsGenome(res[i])
    {
      if i > 0 {
        assert res[i] == Flip(res[0], i - 1);
      }
    }
  }

  /** get_initial_genomes on a gene list that fits, such as GENE_LIST:
      35 genomes, the initial one and each of its 34 one-digit
      variants. */
  method GetInitialGenomes(genes: seq<Gene>) returns (res: seq<string>)
    requires GenesFit(genes)
    ensures |res| == GenomeBits + 1 && res[0] == InitialGenome(genes) && AllGenomes(res)
    ensures forall i :: 0 <= i < GenomeBits ==> |res[0]| > i && res[i + 1] == Flip(res[0], i)
  {
    InitialGenomeLength(genes);
    res := InitialGenomesOf(genes, GenomeBits);
    InitialGenomesAreGenomes(genes, res);
  }

  /** The initial genomes are pairwise distinct: the flipped ones differ
      from the initial one in exactly their own digit. */
  lemma {:induction false} InitialGenomesDistinct(res: seq<string>)
    requires |res| == GenomeBits + 1 && IsGenome(res[0])
    requires forall i :: 0 <= i < GenomeBits ==> res[i + 1] == Flip(res[0], i)
    ensures forall a, b :: 0 <= a < b < |res| ==> res[a] != res[b]
  {
    forall a, b | 0 <= a < b < |res|
      ensures res[a] != res[b]
    {
      var j := b - 1;
      assert res[b] == Flip(res[0], j);
      assert res[b][j] == Not(res[0][j]) != res[0][j];
      if a > 0 {
        assert res[a] == Flip(res[0], a - 1);
        assert res[a][j] == res[0][j];
      }
    }
  }

  // ---------------------------------------------------------------------
  // rand

  /** rand() and its context, a default argument shared by every call. */
  class Random {
    var context: nat

    constructor()
      ensures context == Lcg.Seed
    {
      context := Lcg.Seed;
    }

    /** One step of the generator; the new context is the result. */
    method Rand() returns (r: nat)
      modifies this
      ensures context == Lcg.Next(old(context)) && r == context
    {
      context := Lcg.Next(context);
      r := context;
    }
  }

  // ---------------------------------------------------------------------
  // Breeding

  /** A genome and the generator context after drawing it. */
  datatype Drawn = Drawn(genome: string, context: nat)

  /** Breeding's new genomes and the generator context afterwards. */
  datatype Bred = Bred(children: seq<string>, context: nat)

  /** The digits the k flips of a mutation draw from context c. */
  function FlipPositions(c: nat, k: nat): (js: seq<nat>)
    ensures |js| == k && forall i :: 0 <= i < k ==> js[i] < GenomeBits
  {
    if k == 0 then [] else
      var js := FlipPositions(c, k - 1);
      js + [Lcg.Next(Draws(c, k - 1)) % GenomeBits]
  }

  /** The context after k draws from c. */
  function Draws(c: nat, k: nat): nat
  {
    if k == 0 then c else Lcg.Next(Draws(c, k - 1))
  }

  /** The mutation loop: k times, draw j and flip digit j. */
  function Mutations(v: string, c: nat, k: nat): (d: Drawn)
    requires |v| == GenomeBits
    ensures |d.genome| == |v| && d.context == Draws(c, k)
    ensures IsBinary(v) ==> IsBinary(d.genome)
  {
    if k == 0 then Drawn(v, c) else
      var d := Mutations(v, c, k - 1);
      var r := Lcg.Next(d.context);
      Drawn(Flip(d.genome, r % GenomeBits), r)
  }

  /** A mutant keeps every digit of its parent except the drawn ones. */
  lemma {:induction false} MutationsKeep(v: string, c: nat, k: nat)
    requires |v| == GenomeBits
    ensures forall p :: 0 <= p < |v| && p !in FlipPositions(c, k) ==> Mutations(v, c, k).genome[p] == v[p]
  {
    forall p | 0 <= p < |v| && p !in FlipPositions(c, k)
      ensures Mutations(v, c, k).genome[p] == v[p]
    {
      KeepsDigit(v, c, k, p);
    }
  }

  lemma {:induction false} KeepsDigit(v: string, c: nat, k: nat, p: nat)
    requires |v| == GenomeBits && p < |v| && p !in FlipPositions(c, k)
    ensures Mutations(v, c, k).genome[p] == v[p]
  {
    if k > 0 {
      var js := FlipPositions(c, k - 1);
      var d := Mutations(v, c, k - 1);
      var j := Lcg.Next(d.context) % GenomeBits;
      assert FlipPositions(c, k) == js + [j];
      assert p !in js && p != j;
      KeepsDigit(v, c, k - 1, p);
      assert Mutations(v, c, k).genome == Flip(d.genome, j);
    }
  }

  /** u[:i] + v[i:j+1] + u[j+1:]: u with digits i to j taken from w. */
  function Cross(u: string, w: string, i: nat, j: nat): (r: string)
    requires i <= j < |u| == |w|
    ensures |r| == |u|
    ensures forall k :: 0 <= k < |u| ==> r[k] == (if i <= k <= j then w[k] else u[k])
    ensures IsBinary(u) && IsBinary(w) ==> IsBinary(r)
  {
    u[..i] + w[i..j + 1] + u[j + 1..]
  }

  /** Every genome of a list is a genome. */
  predicate AllGenomes(gs: seq<string>)
  {
    forall i :: 0 <= i < |gs| ==> IsGenome(gs[i])
  }

  /** The mutation step: pick a parent with one draw, then flip three
      drawn digits. */
  function Mutant(top: seq<string>, c: nat): (d: Drawn)
    requires |top| > 0 && AllGenomes(top)
    ensures IsGenome(d.genome)
  {
    var r := Lcg.Next(c);
    Mutations(top[r % |top|], r, 3)
  }

  /** The crossover step: pick two parents; when they differ, draw two
      cut points and, when they differ, cross the parents both ways. */
  function Crossing(top: seq<string>, c: nat): (b: Bred)
    requires |top| > 0 && AllGenomes(top)
  {
    var r1 := Lcg.Next(c);
    var r2 := Lcg.Next(r1);
    var u, w := top[r1 % |top|], top[r2 % |top|];
    if u == w then Bred([], r2)
    else
      var r3 := Lcg.Next(r2);
      var r4 := Lcg.Next(r3);
      var a, b := r3 % GenomeBits, r4 % GenomeBits;
      var i, j := if a <= b then a else b, if a <= b then b else a;
      if i < j then Bred([Cross(u, w, i, j), Cross(w, u, i, j)], r4) else Bred([], r4)
  }

  /** The breeding of get_next_genome: the mutant, then the crossover
      children, drawn from generator context c. */
  function Breed(top: seq<string>, c: nat): Bred
    requires |top| > 0 && AllGenomes(top)
  {
    var m := Mutant(top, c);
    var x := Crossing(top, m.context);
    Bred([m.genome] + x.children, x.context)
  }

  /** The mutant agrees with the parent the first draw picks except at
      the three digits the next draws flip. */
  lemma {:induction false} MutantNearParent(top: seq<string>, c: nat)
    requires |top| > 0 && AllGenomes(top)
    ensures var r := Lcg.Next(c);
      forall p :: 0 <= p < GenomeBits && p !in FlipPositions(r, 3) ==> Mutant(top, c).genome[p] == top[r % |top|][p]
  {
    var r := Lcg.Next(c);
    MutationsKeep(top[r % |top|], r, 3);
  }

  /** Crossing yields no child, or two genomes that take one of two
      different parents outside a range of at least two digits and the
      other inside it. */
  lemma {:induction false} CrossingChildren(top: seq<string>, c: nat)
    requires |top| > 0 && AllGenomes(top)
    ensures |Crossing(top, c).children| == 0 || |Crossing(top, c).children| == 2
    ensures AllGenomes(Crossing(top, c).children)
    ensures |Crossing(top, c).children| == 2 ==>
      exists u: string, w: string, i: nat, j: nat :: u in top && w in top && IsGenome(u) && IsGenome(w) && u != w && i < j < GenomeBits &&
        Crossing(top, c).children == [Cross(u, w, i, j), Cross(w, u, i, j)]
  {
    var r1 := Lcg.Next(c);
    var r2 := Lcg.Next(r1);
    var u, w := top[r1 % |top|], top[r2 % |top|];
    if u != w {
      var r3 := Lcg.Next(r2);
      var r4 := Lcg.Next(r3);
      var a, b := r3 % GenomeBits, r4 % GenomeBits;
      var i, j := if a <= b then a else b, if a <= b then b else a;
      if i < j {
        var kids := [Cross(u, w, i, j), Cross(w, u, i, j)];
        assert Crossing(top, c).children == kids;
        assert AllGenomes(kids);
      }
    }
  }

  /** Breeding yields the mutant and either no or two crossover children,
      all of them genomes. */
  lemma {:induction false} BreedChildren(top: seq<string>, c: nat)
    requires |top| > 0 && AllGenomes(top)
    ensures |Breed(top, c).children| == 1 || |Breed(top, c).children| == 3
    ensures AllGenomes(Breed(top, c).children)
    ensures Breed(top, c).children[0] == Mutant(top, c).genome
  {
    var m := Mutant(top, c);
    CrossingChildren(top, m.context);
    var b := Breed(top, c);
    assert b.children == [m.genome] + Crossing(top, m.context).children;
    forall k | 0 <= k < |b.children|
      ensures IsGenome(b.children[k])
    {
      if k > 0 {
        assert b.children[k] == Crossing(top, m.context).children[k - 1];
      }
    }
  }

  // ---------------------------------------------------------------------
  // Ranking

  /** What an evaluation reports: the score and the score after each
      step. */
  datatype Outcome = Outcome(score: nat, scoreByStep: seq<nat>)

  /** A genome with its outcome: the items get_best and get_bests rank. */
  datatype Entry = Entry(genome: string, outcome: Outcome)

  function Score(e: Entry): nat
  {
    e.outcome.score
  }

  /** a does not score above b. */
  predicate NotAbove(a: Entry, b: Entry)
  {
    Score(a) <= Score(b)
  }

  predicate SortedDesc(s: seq<Entry>)
  {
    forall i, j {:trigger NotAbove(s[j], s[i])} :: 0 <= i < j < |s| ==> NotAbove(s[j], s[i])
  }

  /** Puts x after every element scoring at least as much and before the
      first one scoring less. */
  function InsertDesc(x: Entry, s: seq<Entry>): (r: seq<Entry>)
    ensures |r| == |s| + 1
  {
    if |s| == 0 then [x]
    else if Score(s[0]) < Score(x) then [x] + s
    else [s[0]] + InsertDesc(x, s[1..])
  }

  lemma {:induction false} InsertDescMultiset(x: Entry, s: seq<Entry>)
    ensures multiset(InsertDesc(x, s)) == multiset(s) + multiset{x}
  {
    if |s| > 0 {
      assert s == [s[0]] + s[1..];
      if Score(s[0]) >= Score(x) {
        InsertDescMultiset(x, s[1..]);
      }
    }
  }

  /** A head scoring at least as much as every element keeps a descending
      list descending. */
  lemma {:induction false} ConsDesc(h: Entry, t: seq<Entry>)
    requires SortedDesc(t) && forall e | e in t :: NotAbove(e, h)
    ensures SortedDesc([h] + t)
  {
    forall a, b | 0 <= a < b < |t| + 1
      ensures NotAbove(([h] + t)[b], ([h] + t)[a])
    {
      if a == 0 {
        assert ([h] + t)[b] in t;
      } else {
        assert ([h] + t)[b] == t[b - 1] && ([h] + t)[a] == t[a - 1];
      }
    }
  }

  /** Inserting into a descending list keeps it descending. */
  lemma {:induction false} InsertDescSorted(x: Entry, s: seq<Entry>)
    requires SortedDesc(s)
    ensures SortedDesc(InsertDesc(x, s))
  {
    if |s| == 0 {
    } else if Score(s[0]) < Score(x) {
      forall e | e in s
        ensures NotAbove(e, x)
      {
        var j :| 0 <= j < |s| && s[j] == e;
        if j > 0 {
          assert NotAbove(s[j], s[0]);
        }
      }
      ConsDesc(x, s);
    } else {
      var t := InsertDesc(x, s[1..]);
      InsertDescSorted(x, s[1..]);
      InsertDescMultiset(x, s[1..]);
      forall e | e in t
        ensures NotAbove(e, s[0])
      {
        assert e in multiset(t);
        if e != x {
          assert e in multiset(s[1..]);
          var j :| 0 <= j < |s[1..]| && s[1..][j] == e;
          assert NotAbove(s[j + 1], s[0]);
        }
      }
      ConsDesc(s[0], t);
    }
  }

  /** list.sort(key=score, reverse=True): stable, highest score first. */
  function SortDesc(s: seq<Entry>): (r: seq<Entry>)
    ensures |r| == |s|
  {
    if |s| == 0 then [] else InsertDesc(s[|s| - 1], SortDesc(s[..|s| - 1]))
  }

  /** The sorted list is a descending permutation. */
  lemma SortDescSpec(s: seq<Entry>)
    ensures multiset(SortDesc(s)) == multiset(s) && SortedDesc(SortDesc(s))
  {
    SortDescPermutes(s);
    SortDescSorted(s);
  }

  /** Sorting keeps the elements. */
  lemma {:induction false} SortDescPermutes(s: seq<Entry>)
    ensures multiset(SortDesc(s)) == multiset(s)
  {
    if |s| > 0 {
      var n := |s| - 1;
      SortDescPermutes(s[..n]);
      InsertDescMultiset(s[n], SortDesc(s[..n]));
      assert s == s[..n] + [s[n]];
    }
  }

  /** The sorted list is descending. */
  lemma {:induction false} SortDescSorted(s: seq<Entry>)
    ensures SortedDesc(SortDesc(s))
  {
    if |s| > 0 {
      var n := |s| - 1;
      SortDescSorted(s[..n]);
      InsertDescSorted(s[n], SortDesc(s[..n]));
    }
  }

  /** The elements of s with score v, in order. */
  function WithScore(s: seq<Entry>, v: nat): seq<Entry>
  {
    if |s| == 0 then [] else WithScore(s[..|s| - 1], v) + (if Score(s[|s| - 1]) == v then [s[|s| - 1]] else [])
  }

  lemma {:induction false} WithScoreCons(x: Entry, s: seq<Entry>, v: nat)
    ensures WithScore([x] + s, v) == (if Score(x) == v then [x] else []) + WithScore(s, v)
    decreases |s|
  {
    if |s| > 0 {
      var n := |s| - 1;
      assert ([x] + s)[..|s|] == [x] + s[..n];
      WithScoreCons(x, s[..n], v);
    } else {
      assert [x] + s == [x];
      assert WithScore([x], v) == WithScore([x][..0], v) + (if Score(x) == v then [x] else []);
    }
  }

  /** In a descending list x goes behind the elements scoring the same. */
  lemma {:induction false} InsertDescStable(x: Entry, s: seq<Entry>, v: nat)
    requires SortedDesc(s)
    ensures WithScore(InsertDesc(x, s), v) == WithScore(s, v) + (if Score(x) == v then [x] else [])
    decreases |s|
  {
    var tail := if Score(x) == v then [x] else [];
    if |s| == 0 {
      assert [x][..0] == [];
    } else if Score(s[0]) < Score(x) {
      assert InsertDesc(x, s) == [x] + s;
      WithScoreCons(x, s, v);
      if Score(x) == v {
        BelowHead(s, v);
      }
    } else {
      SortedTail(s);
      InsertDescStable(x, s[1..], v);
      InsertBehindHead(x, s, v);
    }
  }

  /** The step of InsertDescStable where x goes behind the head. */
  lemma {:induction false} InsertBehindHead(x: Entry, s: seq<Entry>, v: nat)
    requires |s| > 0 && Score(s[0]) >= Score(x)
    requires WithScore(InsertDesc(x, s[1..]), v) == WithScore(s[1..], v) + (if Score(x) == v then [x] else [])
    ensures WithScore(InsertDesc(x, s), v) == WithScore(s, v) + (if Score(x) == v then [x] else [])
  {
    var tail := if Score(x) == v then [x] else [];
    var t := InsertDesc(x, s[1..]);
    assert InsertDesc(x, s) == [s[0]] + t;
    var head := if Score(s[0]) == v then [s[0]] else [];
    WithScoreCons(s[0], t, v);
    WithScoreCons(s[0], s[1..], v);
    assert [s[0]] + s[1..] == s;
    assert WithScore(s, v) == head + WithScore(s[1..], v);
    assert head + (WithScore(s[1..], v) + tail) == (head + WithScore(s[1..], v)) + tail;
  }

  lemma {:induction false} SortedTail(s: seq<Entry>)
    requires SortedDesc(s) && |s| > 0
    ensures SortedDesc(s[1..])
  {
    forall a, b | 0 <= a < b < |s| - 1
      ensures NotAbove(s[1..][b], s[1..][a])
    {
      assert NotAbove(s[b + 1], s[a + 1]);
    }
  }

  /** In a descending list headed by a score below v, no element scores v. */
  lemma {:induction false} BelowHead(s: seq<Entry>, v: nat)
    requires SortedDesc(s) && |s| > 0 && Score(s[0]) < v
    ensures WithScore(s, v) == []
  {
    forall i | 0 <= i < |s|
      ensures Score(s[i]) < v
    {
      if i > 0 {
        assert NotAbove(s[i], s[0]);
      }
    }
    NoneWithScore(s, v);
  }

  /** A list scoring below v everywhere has no element of score v. */
  lemma {:induction false} NoneWithScore(s: seq<Entry>, v: nat)
    requires forall i :: 0 <= i < |s| ==> Score(s[i]) < v
    ensures WithScore(s, v) == []
    decreases |s|
  {
    if |s| > 0 {
      NoneWithScore(s[..|s| - 1], v);
    }
  }

  /** Sorting is stable: the elements of any one score keep their order. */
  lemma {:induction false} SortDescStable(s: seq<Entry>, v: nat)
    ensures WithScore(SortDesc(s), v) == WithScore(s, v)
    decreases |s|
  {
    if |s| > 0 {
      var n := |s| - 1;
      SortDescStable(s[..n], v);
      SortDescSpec(s[..n]);
      InsertDescStable(s[n], SortDesc(s[..n]), v);
    }
  }

  /** The first k elements of a descending permutation of s are a
      sub-multiset of s, in order, and score at least as much as every
      element of s left out. */
  lemma {:induction false} TopOfSorted(s: seq<Entry>, k: nat)
    requires k <= |s|
    ensures var top := SortDesc(s)[..k];
      multiset(top) <= multiset(s) && SortedDesc(top) &&
      forall e, i :: e in multiset(s) - multiset(top) && 0 <= i < k ==> Score(e) <= Score(top[i])
  {
    SortDescSpec(s);
    var r := SortDesc(s);
    SortedPrefix(r, k);
    PrefixBeatsRest(r, k);
  }

  lemma {:induction false} SortedPrefix(r: seq<Entry>, k: nat)
    requires SortedDesc(r) && k <= |r|
    ensures SortedDesc(r[..k])
  {
    forall a, b | 0 <= a < b < k
      ensures NotAbove(r[..k][b], r[..k][a])
    {
      assert NotAbove(r[b], r[a]);
    }
  }

  /** In a descending list, every element after the first k scores no
      more than any of the first k. */
  lemma {:induction false} PrefixBeatsRest(r: seq<Entry>, k: nat)
    requires SortedDesc(r) && k <= |r|
    ensures multiset(r[..k]) <= multiset(r)
    ensures forall e, i :: e in multiset(r) - multiset(r[..k]) && 0 <= i < k ==> Score(e) <= Score(r[..k][i])
  {
    var top, rest := r[..k], r[k..];
    assert r == top + rest;
    assert multiset(r) == multiset(top) + multiset(rest);
    forall e, i | e in multiset(r) - multiset(top) && 0 <= i < k
      ensures Score(e) <= Score(top[i])
    {
      assert e in multiset(rest);
      var m :| 0 <= m < |rest| && rest[m] == e;
      assert NotAbove(r[k + m], r[i]);
    }
  }

  /** Only the entries of s scoring above zero, in order. */
  function Positive(s: seq<Entry>): (r: seq<Entry>)
    ensures multiset(r) <= multiset(s)
    ensures forall i :: 0 <= i < |r| ==> Score(r[i]) > 0
    ensures forall e :: e in s && Score(e) > 0 ==> e in r
  {
    if |s| == 0 then [] else
      var n := |s| - 1;
      assert s == s[..n] + [s[n]];
      Positive(s[..n]) + (if Score(s[n]) > 0 then [s[n]] else [])
  }

  function Min(a: nat, b: nat): nat
  {
    if a <= b then a else b
  }

  function Max(a: nat, b: nat): nat
  {
    if a >= b then a else b
  }

  /** The first n of the entries of s, highest score first. */
  function Best(s: seq<Entry>, n: nat): (r: seq<Entry>)
    ensures |r| == Min(n, |s|)
    ensures multiset(r) <= multiset(s) && SortedDesc(r)
    ensures forall e, i :: e in multiset(s) - multiset(r) && 0 <= i < |r| ==> Score(e) <= Score(r[i])
  {
    TopOfSorted(s, Min(n, |s|));
    SortDesc(s)[..Min(n, |s|)]
  }

  /** The genomes of a list of entries. */
  function GenomesOf(s: seq<Entry>): (r: seq<string>)
    ensures |r| == |s| && forall i :: 0 <= i < |s| ==> r[i] == s[i].genome
  {
    seq(|s|, i requires 0 <= i < |s| => s[i].genome)
  }

  // ---------------------------------------------------------------------
  // Running

  /** A solver run in progress (Running): its genome, its flags and the
      abort thresholds it was started with. */
  datatype Run = Run(genome: string, params: string, abortThreshold: seq<nat>)

  /** The command line a run starts: ./main, the flags split on spaces,
      and the abort thresholds comma-separated. */
  function CommandLine(r: Run): seq<string>
  {
    ["./main"] + Split(r.params, ' ') + ["--abort_threshold=" + Join(Search.ThresholdText(r.abortThreshold), ',')]
  }

  /** [max(x - 1000, 0) for x in score_by_step]. */
  function Relaxed(xs: seq<nat>): (r: seq<nat>)
    ensures |r| == |xs|
    ensures forall i :: 0 <= i < |xs| ==> r[i] <= xs[i] && xs[i] <= r[i] + 1000 && (r[i] == 0 || r[i] + 1000 == xs[i])
  {
    seq(|xs|, i requires 0 <= i < |xs| => if xs[i] >= 1000 then xs[i] - 1000 else 0)
  }

  /** The abort thresholds of a new run: relaxed from the score by step of
      the 20th best, or none while fewer than 20 genomes are done. */
  function AbortFor(bests: seq<Entry>): seq<nat>
  {
    if |bests| >= 20 then Relaxed(bests[19].outcome.scoreByStep) else []
  }

  /** A gene list the driver can work with: its genes take GENOME_BITS
      digits, none is a choice (so genome_to_params never fails on a
      genome), and every starting value fits its digits. */
  predicate GenesFit(genes: seq<Gene>)
  {
    TotalBits(genes) == GenomeBits &&
    (forall k :: 0 <= k < |genes| ==> !genes[k].rule.Choice?) &&
    (forall k :: 0 <= k < |genes| ==> InitialFits(genes[k]))
  }

  /** GENE_LIST fits: its genes take 34 digits, none is a choice, and
      every starting value fits. */
  lemma {:induction false} GeneListIsFit()
    ensures GenesFit(GeneList)
  {
    GenomeBitsValue();
    GeneListFits();
    assert forall k :: 0 <= k < |GeneList| ==> !GeneList[k].rule.Choice?;
  }

  /** The flag text genome_to_params gives a genome. */
  function ParamText(genes: seq<Gene>, genome: string, format: real -> string): string
    requires GenesFit(genes) && IsGenome(genome)
  {
    Join(Params(genes, genome, format).value, ' ')
  }

  /** The flags a run is started with are those genome_to_params produced
      for its genome, followed by its abort thresholds, when no gene name,
      choice or formatted number holds a space. */
  lemma {:induction false} CommandLineFlags(genes: seq<Gene>, r: Run, format: real -> string)
    requires |r.genome| == TotalBits(genes) && |genes| >= 1
    requires Params(genes, r.genome, format).Some? && r.params == Join(Params(genes, r.genome, format).value, ' ')
    requires forall k :: 0 <= k < |genes| ==> ' ' !in genes[k].name
    requires forall k, c :: 0 <= k < |genes| && genes[k].rule.Choice? && c in genes[k].rule.choices ==> ' ' !in c
    requires forall x: real :: ' ' !in format(x)
    ensures CommandLine(r) ==
      ["./main"] + Params(genes, r.genome, format).value + ["--abort_threshold=" + Join(Search.ThresholdText(r.abortThreshold), ',')]
  {
    ParamsSplit(genes, r.genome, format);
  }

  /** How run_new ends: a run started, the driver crashed, or the fuel
      ran out. */
  datatype Status = Started | Crashed | OutOfFuel

  /** The entries of a map of genomes to flags, in the order the genomes
      were added, with the outcome of their flags. */
  function EntriesOf(keys: seq<string>, done: map<string, string>, results: map<string, Outcome>): (r: seq<Entry>)
    requires forall i :: 0 <= i < |keys| ==> keys[i] in done && done[keys[i]] in results
    ensures |r| == |keys|
    ensures forall i :: 0 <= i < |keys| ==> r[i] == Entry(keys[i], results[done[keys[i]]])
  {
    seq(|keys|, i requires 0 <= i < |keys| => Entry(keys[i], results[done[keys[i]]]))
  }

  /** The runs still in progress, in order: those with no outcome. */
  function Waiting(runs: seq<Run>, outs: seq<Option<Outcome>>): (w: seq<Run>)
    requires |runs| == |outs|
    ensures |w| <= |runs|
  {
    if |runs| == 0 then []
    else (if outs[0].None? then [runs[0]] else []) + Waiting(runs[1..], outs[1..])
  }

  /** The genomes of the finished runs, in the order ping records them:
      from the last run to the first. */
  function Finished(runs: seq<Run>, outs: seq<Option<Outcome>>): seq<string>
    requires |runs| == |outs|
  {
    if |runs| == 0 then []
    else Finished(runs[1..], outs[1..]) + (if outs[0].Some? then [runs[0].genome] else [])
  }

  /** results after ping records the finished runs, the last run first. */
  function Recorded(results: map<string, Outcome>, runs: seq<Run>, outs: seq<Option<Outcome>>): map<string, Outcome>
    requires |runs| == |outs|
  {
    if |runs| == 0 then results
    else
      var r := Recorded(results, runs[1..], outs[1..]);
      if outs[0].Some? then r[runs[0].params := outs[0].value] else r
  }

  /** done_genomes after ping records the finished runs. */
  function Filed(done: map<string, string>, runs: seq<Run>, outs: seq<Option<Outcome>>): map<string, string>
    requires |runs| == |outs|
  {
    if |runs| == 0 then done
    else
      var d := Filed(done, runs[1..], outs[1..]);
      if outs[0].Some? then d[runs[0].genome := runs[0].params] else d
  }

  /** Runs with distinct genomes. */
  predicate DistinctRuns(runs: seq<Run>)
  {
    forall i, j :: 0 <= i < j < |runs| ==> runs[i].genome != runs[j].genome
  }

  /** The runs after the first of runs with distinct genomes have distinct
      genomes, none of them the first one's. */
  lemma {:induction false} DistinctTail(runs: seq<Run>)
    requires |runs| > 0 && DistinctRuns(runs)
    ensures DistinctRuns(runs[1..])
    ensures forall r :: r in runs[1..] ==> r.genome != runs[0].genome
  {
    var rs := runs[1..];
    forall a, b | 0 <= a < b < |rs|
      ensures rs[a].genome != rs[b].genome
    {
      assert rs[a] == runs[a + 1] && rs[b] == runs[b + 1];
    }
    forall r | r in rs
      ensures r.genome != runs[0].genome
    {
      var i :| 0 <= i < |rs| && rs[i] == r;
      assert runs[i + 1] == r;
    }
  }

  /** Every run ends up either still waiting or finished, and not both. */
  lemma {:induction false} HarvestSplits(runs: seq<Run>, outs: seq<Option<Outcome>>)
    requires |runs| == |outs| && DistinctRuns(runs)
    ensures |Waiting(runs, outs)| + |Finished(runs, outs)| == |runs|
    ensures forall i :: 0 <= i < |runs| ==> (runs[i] in Waiting(runs, outs) <==> outs[i].None?)
    ensures forall i :: 0 <= i < |runs| ==> (runs[i].genome in Finished(runs, outs) <==> outs[i].Some?)
    decreases |runs|
  {
    if |runs| > 0 {
      var rs, os := runs[1..], outs[1..];
      DistinctTail(runs);
      HarvestSplits(rs, os);
      forall i | 0 < i < |runs|
        ensures runs[i] == rs[i - 1] && outs[i] == os[i - 1]
      {
      }
      assert runs[0] !in Waiting(rs, os) by {
        if runs[0] in Waiting(rs, os) {
          WaitingFrom(rs, os, runs[0]);
          assert false;
        }
      }
      assert runs[0].genome !in Finished(rs, os) by {
        if runs[0].genome in Finished(rs, os) {
          FinishedFrom(rs, os, runs[0].genome);
          assert false;
        }
      }
    }
  }

  /** A finished run's genome is filed under its flags and its flags have
      an outcome; whatever was recorded or filed before stays so, and
      nothing else is filed. */
  lemma {:induction false} HarvestFiles(done: map<string, string>, results: map<string, Outcome>, runs: seq<Run>, outs: seq<Option<Outcome>>)
    requires |runs| == |outs| && DistinctRuns(runs)
    ensures forall i :: 0 <= i < |runs| && outs[i].Some? ==>
      runs[i].params in Recorded(results, runs, outs) &&
      runs[i].genome in Filed(done, runs, outs) && Filed(done, runs, outs)[runs[i].genome] == runs[i].params
    ensures forall p :: p in results ==> p in Recorded(results, runs, outs)
    ensures forall g :: g in Filed(done, runs, outs) <==> g in done || g in Finished(runs, outs)
    decreases |runs|
  {
    if |runs| > 0 {
      var rs, os := runs[1..], outs[1..];
      DistinctTail(runs);
      HarvestFiles(done, results, rs, os);
      forall i | 0 < i < |runs|
        ensures runs[i] == rs[i - 1] && outs[i] == os[i - 1] && runs[i].genome != runs[0].genome
      {
        assert runs[i] in rs;
      }
    }
  }

  /** A waiting run is one of the runs. */
  lemma {:induction false} WaitingFrom(runs: seq<Run>, outs: seq<Option<Outcome>>, r: Run)
    requires |runs| == |outs| && r in Waiting(runs, outs)
    ensures exists i :: 0 <= i < |runs| && runs[i] == r
    decreases |runs|
  {
    if |runs| > 0 && r != runs[0] {
      WaitingFrom(runs[1..], outs[1..], r);
      var i :| 0 <= i < |runs[1..]| && runs[1..][i] == r;
      assert runs[i + 1] == r;
    }
  }

  /** A finished genome is the genome of one of the runs. */
  lemma {:induction false} FinishedFrom(runs: seq<Run>, outs: seq<Option<Outcome>>, g: string)
    requires |runs| == |outs| && g in Finished(runs, outs)
    ensures exists i :: 0 <= i < |runs| && runs[i].genome == g
    decreases |runs|
  {
    if |runs| > 0 && g != runs[0].genome {
      FinishedFrom(runs[1..], outs[1..], g);
      var i :| 0 <= i < |runs[1..]| && runs[1..][i].genome == g;
      assert runs[i + 1].genome == g;
    }
  }

  // ---------------------------------------------------------------------
  // Drawing new genomes

  /** The mutation: pick a parent with one draw and flip three drawn
      digits. */
  method MutateStep(rng: Random, top: seq<string>) returns (m: string)
    requires |top| > 0 && AllGenomes(top)
    modifies rng
    ensures Drawn(m, rng.context) == Mutant(top, old(rng.context))
  {
    var r := rng.Rand();
    m := top[r % |top|];
    for k := 0 to 3
      invariant Drawn(m, rng.context) == Mutations(top[r % |top|], r, k)
    {
      var j := rng.Rand();
      j := j % GenomeBits;
      m := Flip(m, j);
    }
  }

  /** The crossover: pick two parents; when they differ, draw two cut
      points and, when those differ, cross the parents both ways. */
  method CrossStep(rng: Random, top: seq<string>) returns (kids: seq<string>)
    requires |top| > 0 && AllGenomes(top)
    modifies rng
    ensures Bred(kids, rng.context) == Crossing(top, old(rng.context))
  {
    var a := rng.Rand();
    var u := top[a % |top|];
    var b := rng.Rand();
    var w := top[b % |top|];
    kids := [];
    if u != w {
      var i := rng.Rand();
      i := i % GenomeBits;
      var j := rng.Rand();
      j := j % GenomeBits;
      i, j := if i <= j then i else j, if i <= j then j else i;
      if i < j {
        kids := [u[..i] + w[i..j + 1] + u[j + 1..], w[..i] + u[i..j + 1] + w[j + 1..]];
      }
    }
  }

  /** genome_to_params on a gene list that fits, where it always
      succeeds. */
  method GenomeParams(genes: seq<Gene>, genome: string, format: real -> string) returns (params: string)
    requires GenesFit(genes) && IsGenome(genome)
    ensures params == ParamText(genes, genome, format)
  {
    var r := GenomeToParams(genes, genome, format);
    params := r.value;
  }

  // ---------------------------------------------------------------------
  // The driver state

  /** At most this many runs at a time (_max_parallel). */
  const MaxParallel: nat := 8

  /** The driver's invariant: the done genomes are listed once each in the
      order they were added, are genomes, and have an outcome for their
      flags; waiting genomes are genomes; the genomes in progress are
      genomes, distinct, and not done. */
  ghost predicate Consistent(done: map<string, string>, order: seq<string>, results: map<string, Outcome>,
                             running: seq<Run>, pending: seq<string>)
  {
    LedgerOk(done, order, results) && AllGenomes(pending) && RunsOk(done, running)
  }

  /** The genomes in progress are genomes, distinct, and not done. */
  ghost predicate RunsOk(done: map<string, string>, running: seq<Run>)
  {
    (forall i :: 0 <= i < |running| ==> IsGenome(running[i].genome) && running[i].genome !in done) &&
    DistinctRuns(running)
  }

  /** Consistency does not depend on which genomes wait, as long as they
      are genomes. */
  lemma {:induction false} PendingReplaced(done: map<string, string>, order: seq<string>, results: map<string, Outcome>,
                        running: seq<Run>, pending: seq<string>, pending': seq<string>)
    requires Consistent(done, order, results, running, pending) && AllGenomes(pending')
    ensures Consistent(done, order, results, running, pending')
  {
  }

  /** The done genomes are listed once each in the order they were added,
      are genomes, and have an outcome for their flags. */
  ghost predicate LedgerOk(done: map<string, string>, order: seq<string>, results: map<string, Outcome>)
  {
    (forall i, j :: 0 <= i < j < |order| ==> order[i] != order[j]) &&
    (forall i :: 0 <= i < |order| ==> order[i] in done) &&
    (forall g :: g in done ==> g in order && done[g] in results && IsGenome(g))
  }

  /** The finished genomes are listed once each. */
  lemma {:induction false} FinishedDistinct(runs: seq<Run>, outs: seq<Option<Outcome>>)
    requires |runs| == |outs| && DistinctRuns(runs)
    ensures forall i, j :: 0 <= i < j < |Finished(runs, outs)| ==> Finished(runs, outs)[i] != Finished(runs, outs)[j]
    decreases |runs|
  {
    if |runs| > 0 {
      var rs, os := runs[1..], outs[1..];
      DistinctTail(runs);
      FinishedDistinct(rs, os);
      forall i | 0 <= i < |rs|
        ensures rs[i].genome != runs[0].genome
      {
        assert rs[i] in rs;
      }
      if runs[0].genome in Finished(rs, os) {
        FinishedFrom(rs, os, runs[0].genome);
        assert false;
      }
    }
  }

  /** The runs left waiting have distinct genomes. */
  lemma {:induction false} WaitingDistinct(runs: seq<Run>, outs: seq<Option<Outcome>>)
    requires |runs| == |outs| && DistinctRuns(runs)
    ensures DistinctRuns(Waiting(runs, outs))
    decreases |runs|
  {
    if |runs| > 0 {
      var rs, os := runs[1..], outs[1..];
      DistinctTail(runs);
      WaitingDistinct(rs, os);
      var w := Waiting(rs, os);
      forall r | r in w
        ensures r.genome != runs[0].genome
      {
        WaitingFrom(rs, os, r);
        var i :| 0 <= i < |rs| && rs[i] == r;
        assert rs[i] in rs;
      }
      var hd: seq<Run> := if outs[0].None? then [runs[0]] else [];
      var all := hd + w;
      forall a, b | 0 <= a < b < |all|
        ensures all[a].genome != all[b].genome
      {
        if |hd| == 1 && a == 0 {
          assert all[b] == w[b - 1] && w[b - 1] in w;
        } else {
          assert all[a] == w[a - |hd|] && all[b] == w[b - |hd|];
        }
      }
    }
  }

  /** Every finished genome is the genome of a run that has an outcome. */
  lemma {:induction false} FinishedHasOutcome(runs: seq<Run>, outs: seq<Option<Outcome>>, g: string)
    requires |runs| == |outs| && DistinctRuns(runs) && g in Finished(runs, outs)
    ensures exists i :: 0 <= i < |runs| && runs[i].genome == g && outs[i].Some?
  {
    FinishedFrom(runs, outs, g);
    HarvestSplits(runs, outs);
  }

  /** Recording the finished runs keeps the ledger sound: their genomes
      join the order once each, filed under flags that now have an
      outcome. */
  lemma {:induction false} LedgerAfterHarvest(done: map<string, string>, order: seq<string>, results: map<string, Outcome>,
                           running: seq<Run>, outs: seq<Option<Outcome>>)
    requires LedgerOk(done, order, results) && RunsOk(done, running) && |outs| == |running|
    ensures LedgerOk(Filed(done, running, outs), order + Finished(running, outs), Recorded(results, running, outs))
  {
    var d, f, r := Filed(done, running, outs), Finished(running, outs), Recorded(results, running, outs);
    var o := order + f;
    HarvestFiles(done, results, running, outs);
    FinishedDistinct(running, outs);
    forall k | 0 <= k < |f|
      ensures f[k] !in done && f[k] in d
    {
      FinishedHasOutcome(running, outs, f[k]);
    }
    forall i, j | 0 <= i < j < |o|
      ensures o[i] != o[j]
    {
      if j >= |order| && i < |order| {
        assert o[j] == f[j - |order|] && o[i] == order[i];
      } else if i >= |order| {
        assert o[i] == f[i - |order|] && o[j] == f[j - |order|];
      }
    }
    forall i | 0 <= i < |o|
      ensures o[i] in d
    {
      if i >= |order| {
        assert o[i] == f[i - |order|];
      }
    }
    forall g | g in d
      ensures g in o && d[g] in r && IsGenome(g)
    {
      if g in f {
        FinishedHasOutcome(running, outs, g);
        var k :| 0 <= k < |f| && f[k] == g;
        assert o[|order| + k] == g;
      } else {
        assert g in done;
        FiledKeeps(done, running, outs, g);
        var k :| 0 <= k < |order| && order[k] == g;
        assert o[k] == g;
      }
    }
  }

  /** A genome that was done and did not finish again keeps its flags. */
  lemma {:induction false} FiledKeeps(done: map<string, string>, runs: seq<Run>, outs: seq<Option<Outcome>>, g: string)
    requires |runs| == |outs| && g in done && g !in Finished(runs, outs)
    ensures g in Filed(done, runs, outs) && Filed(done, runs, outs)[g] == done[g]
    decreases |runs|
  {
    if |runs| > 0 {
      FiledKeeps(done, runs[1..], outs[1..], g);
    }
  }

  /** The runs left waiting are still sound: genomes, distinct, and not
      among the genomes just filed. */
  lemma {:induction false} RunsAfterHarvest(done: map<string, string>, running: seq<Run>, outs: seq<Option<Outcome>>)
    requires RunsOk(done, running) && |outs| == |running|
    ensures RunsOk(Filed(done, running, outs), Waiting(running, outs))
  {
    var w := Waiting(running, outs);
    HarvestSplits(running, outs);
    HarvestFiles(done, map[], running, outs);
    WaitingDistinct(running, outs);
    forall k | 0 <= k < |w|
      ensures IsGenome(w[k].genome) && w[k].genome !in Filed(done, running, outs)
    {
      WaitingFrom(running, outs, w[k]);
      var i :| 0 <= i < |running| && running[i] == w[k];
    }
  }

  /** ping's first loop keeps the driver's invariant. */
  lemma {:induction false} HarvestConsistent(done: map<string, string>, order: seq<string>, results: map<string, Outcome>,
                          running: seq<Run>, pending: seq<string>, outs: seq<Option<Outcome>>)
    requires Consistent(done, order, results, running, pending) && |outs| == |running|
    ensures Consistent(Filed(done, running, outs), order + Finished(running, outs), Recorded(results, running, outs),
                       Waiting(running, outs), pending)
  {
    LedgerAfterHarvest(done, order, results, running, outs);
    RunsAfterHarvest(done, running, outs);
  }

  /** Filing a genome that is not done under flags with an outcome keeps
      the ledger sound. */
  lemma {:induction false} LedgerAdd(done: map<string, string>, order: seq<string>, results: map<string, Outcome>,
                  g: string, params: string)
    requires LedgerOk(done, order, results) && IsGenome(g) && g !in done && params in results
    ensures LedgerOk(done[g := params], order + [g], results)
  {
    var o := order + [g];
    forall i, j | 0 <= i < j < |o|
      ensures o[i] != o[j]
    {
      assert o[i] == order[i];
      if j == |order| {
        assert order[i] in done;
      }
    }
    forall h | h in done[g := params]
      ensures h in o
    {
      if h == g {
        assert o[|order|] == g;
      } else {
        var k :| 0 <= k < |order| && order[k] == h;
        assert o[k] == h;
      }
    }
  }

  /** The flags a genome is filed under, or started with, are those of
      genome_to_params. */
  ghost predicate CacheHits(genes: seq<Gene>, done0: map<string, string>, order0: seq<string>,
                            done: map<string, string>, order: seq<string>, format: real -> string)
    requires GenesFit(genes)
  {
    (forall g :: g in done0 ==> g in done && done[g] == done0[g]) &&
    (forall g :: g in done && g !in done0 ==> IsGenome(g) && done[g] == ParamText(genes, g, format)) &&
    |order0| <= |order| && order[..|order0|] == order0
  }

  /** Cache hits accumulate. */
  lemma {:induction false} CacheHitsTrans(genes: seq<Gene>, done0: map<string, string>, order0: seq<string>, done1: map<string, string>, order1: seq<string>,
                       done2: map<string, string>, order2: seq<string>, format: real -> string)
    requires GenesFit(genes)
    requires CacheHits(genes, done0, order0, done1, order1, format) && CacheHits(genes, done1, order1, done2, order2, format)
    ensures CacheHits(genes, done0, order0, done2, order2, format)
  {
    assert order2[..|order0|] == order2[..|order1|][..|order0|];
  }

  /** A run as run_new starts it: a genome, with the flags genome_to_params
      gives it, that no earlier run recorded an outcome for. */
  ghost predicate Launched(genes: seq<Gene>, r: Run, results: map<string, Outcome>, format: real -> string)
    requires GenesFit(genes)
  {
    IsGenome(r.genome) && r.params == ParamText(genes, r.genome, format) && r.params !in results
  }

  /** Every run of rs was launched as run_new launches one. */
  ghost predicate AllLaunched(genes: seq<Gene>, rs: seq<Run>, results: map<string, Outcome>, format: real -> string)
    requires GenesFit(genes)
    decreases |rs|
  {
    |rs| == 0 || (Launched(genes, rs[0], results, format) && AllLaunched(genes, rs[1..], results, format))
  }

  lemma {:induction false} AllLaunchedMeans(genes: seq<Gene>, rs: seq<Run>, results: map<string, Outcome>, format: real -> string)
    requires GenesFit(genes)
    ensures AllLaunched(genes, rs, results, format) <==> forall k :: 0 <= k < |rs| ==> Launched(genes, rs[k], results, format)
    decreases |rs|
  {
    if |rs| > 0 {
      var t := rs[1..];
      AllLaunchedMeans(genes, t, results, format);
      assert forall k :: 0 <= k < |t| ==> t[k] == rs[k + 1];
      if forall k :: 0 <= k < |rs| ==> Launched(genes, rs[k], results, format) {
        assert forall k :: 0 <= k < |t| ==> Launched(genes, t[k], results, format);
      }
    }
  }

  lemma {:induction false} AllLaunchedSnoc(genes: seq<Gene>, rs: seq<Run>, r: Run, results: map<string, Outcome>, format: real -> string)
    requires GenesFit(genes)
    requires AllLaunched(genes, rs, results, format) && Launched(genes, r, results, format)
    ensures AllLaunched(genes, rs + [r], results, format)
    decreases |rs|
  {
    if |rs| == 0 {
      assert (rs + [r])[1..] == [];
    } else {
      AllLaunchedSnoc(genes, rs[1..], r, results, format);
      assert (rs + [r])[1..] == rs[1..] + [r];
    }
  }

  /** ping's first loop over the runs, from the last to the first: a run
      with an outcome has it recorded under its flags, its genome filed
      and added to the order, and leaves the runs. */
  method HarvestLoop(runs: seq<Run>, outs: seq<Option<Outcome>>, done: map<string, string>, order: seq<string>,
                     results: map<string, Outcome>)
    returns (waiting: seq<Run>, filed: map<string, string>, added: seq<string>, recorded: map<string, Outcome>)
    requires |outs| == |runs|
    ensures waiting == Waiting(runs, outs)
    ensures recorded == Recorded(results, runs, outs)
    ensures filed == Filed(done, runs, outs)
    ensures added == order + Finished(runs, outs)
  {
    waiting, filed, added, recorded := runs, done, order, results;
    var i := |runs|;
    assert runs[i..] == [] && runs[..i] == runs;
    while i > 0
      invariant 0 <= i <= |runs|
      invariant waiting == runs[..i] + Waiting(runs[i..], outs[i..])
      invariant recorded == Recorded(results, runs[i..], outs[i..])
      invariant filed == Filed(done, runs[i..], outs[i..])
      invariant added == order + Finished(runs[i..], outs[i..])
      decreases i
    {
      i := i - 1;
      HarvestStep(runs, outs, i);
      WaitingDrop(runs, outs, i, waiting);
      var r := waiting[i];
      if outs[i].Some? {
        recorded := recorded[r.params := outs[i].value];
        filed := filed[r.genome := r.params];
        added := added + [r.genome];
        waiting := waiting[..i] + waiting[i + 1..];
      }
    }
    assert runs[0..] == runs && outs[0..] == outs;
  }

  /** Removing run i from the runs still in progress: run i sits at
      index i, and leaves exactly when it has an outcome. */
  lemma {:induction false} WaitingDrop(runs: seq<Run>, outs: seq<Option<Outcome>>, i: nat, waiting: seq<Run>)
    requires |runs| == |outs| && i < |runs|
    requires waiting == runs[..i + 1] + Waiting(runs[i + 1..], outs[i + 1..])
    ensures i < |waiting| && waiting[i] == runs[i]
    ensures outs[i].Some? ==> waiting[..i] + waiting[i + 1..] == runs[..i] + Waiting(runs[i..], outs[i..])
    ensures outs[i].None? ==> waiting == runs[..i] + Waiting(runs[i..], outs[i..])
  {
    HarvestStep(runs, outs, i);
    var w := Waiting(runs[i + 1..], outs[i + 1..]);
    assert runs[..i + 1] == runs[..i] + [runs[i]];
    assert waiting == runs[..i] + [runs[i]] + w;
    if outs[i].Some? {
      assert waiting[..i] == runs[..i];
      assert waiting[i + 1..] == w;
    }
  }

  /** One step of ping's first loop, from the runs after i to the runs
      from i on. */
  lemma {:induction false} HarvestStep(runs: seq<Run>, outs: seq<Option<Outcome>>, i: nat)
    requires |runs| == |outs| && i < |runs|
    ensures runs[i..][1..] == runs[i + 1..] && outs[i..][1..] == outs[i + 1..]
    ensures Waiting(runs[i..], outs[i..]) ==
      (if outs[i].None? then [runs[i]] else []) + Waiting(runs[i + 1..], outs[i + 1..])
    ensures Finished(runs[i..], outs[i..]) ==
      Finished(runs[i + 1..], outs[i + 1..]) + (if outs[i].Some? then [runs[i].genome] else [])
  {
    assert runs[i..][1..] == runs[i + 1..] && outs[i..][1..] == outs[i + 1..];
  }

  /** The genomes of done entries are genomes. */
  lemma {:induction false} EntryGenomes(done: map<string, string>, order: seq<string>, results: map<string, Outcome>)
    requires LedgerOk(done, order, results)
    ensures forall i :: 0 <= i < |order| ==> IsGenome(EntriesOf(order, done, results)[i].genome)
  {
  }

  /** The best genomes of a list whose genomes are all genomes are
      genomes. */
  lemma {:induction false} BestGenomes(s: seq<Entry>, n: nat)
    requires forall i :: 0 <= i < |s| ==> IsGenome(s[i].genome)
    ensures AllGenomes(GenomesOf(Best(Positive(s), n)))
  {
    var t := Best(Positive(s), n);
    forall i | 0 <= i < |t|
      ensures IsGenome(t[i].genome)
    {
      assert t[i] in multiset(t);
      assert t[i] in multiset(Positive(s));
      assert t[i] in multiset(s);
      var k :| 0 <= k < |s| && s[k] == t[i];
    }
  }

  /** The breeding half of get_next_genome: one mutant, then (maybe) two
      crossed children, drawn from the best genomes. */
  method BreedStep(rng: Random, top: seq<string>) returns (rest: seq<string>, last: string)
    requires |top| > 0 && AllGenomes(top)
    modifies rng
    ensures Bred(rest + [last], rng.context) == Breed(top, old(rng.context))
    ensures AllGenomes(rest) && IsGenome(last)
  {
    ghost var c := rng.context;
    var m := MutateStep(rng, top);
    var crossed := CrossStep(rng, top);
    var kids := [m] + crossed;
    BreedChildren(top, c);
    rest, last := kids[..|kids| - 1], kids[|kids| - 1];
    assert rest + [last] == kids;
    assert forall i :: 0 <= i < |rest| ==> rest[i] == kids[i];
  }

  /** Some run of runs is of genome. */
  predicate RunsGenome(runs: seq<Run>, genome: string)
  {
    exists i :: 0 <= i < |runs| && runs[i].genome == genome
  }

  /** get_next_genome's outcome, from the waiting genomes pending0, the
      best genomes top0 and the generator context ctx0 to the genome g, the
      waiting genomes pending1 and the context ctx1: the first waiting
      genome; with none waiting and none to breed from, no genome (the
      crash) after one draw; otherwise the last child bred, the others
      left waiting. */
  ghost predicate GenomeDrawn(top0: seq<string>, pending0: seq<string>, ctx0: nat,
                              g: Option<string>, pending1: seq<string>, ctx1: nat)
    requires AllGenomes(top0)
  {
    (pending0 != [] ==> g == Some(pending0[0]) && pending1 == pending0[1..] && ctx1 == ctx0) &&
    (pending0 == [] && top0 == [] ==> g.None? && pending1 == [] && ctx1 == Lcg.Next(ctx0)) &&
    (pending0 == [] && top0 != [] ==>
      g.Some? && pending1 + [g.value] == Breed(top0, ctx0).children && ctx1 == Breed(top0, ctx0).context)
  }

  /** run_new's decision on a drawn genome, from done0/order0/running0 to
      done1/order1/running1: a genome done or running is skipped; a cache
      hit (its flags already have an outcome) is filed as done; any other
      genome starts a run under its flags with the given abort
      thresholds. Only a started run answers Some(Started). */
  ghost predicate Decided(genes: seq<Gene>, format: real -> string, results: map<string, Outcome>, abort: seq<nat>,
                          genome: string, done0: map<string, string>, order0: seq<string>, running0: seq<Run>,
                          status: Option<Status>, done1: map<string, string>, order1: seq<string>, running1: seq<Run>)
    requires GenesFit(genes) && IsGenome(genome)
  {
    if genome in done0 || RunsGenome(running0, genome) then
      status == None && done1 == done0 && order1 == order0 && running1 == running0
    else if ParamText(genes, genome, format) in results then
      status == None && done1 == done0[genome := ParamText(genes, genome, format)] &&
      order1 == order0 + [genome] && running1 == running0
    else
      status == Some(Started) && done1 == done0 && order1 == order0 &&
      running1 == running0 + [Run(genome, ParamText(genes, genome, format), abort)]
  }

  /** The genetic driver (State in genetic.py): done_genomes with the
      order its keys were added in, results, running and pending. */
  class State {
    var done: map<string, string>
    var order: seq<string>
    var results: map<string, Outcome>
    var running: seq<Run>
    var pending: seq<string>
    /** '{:.3f}'.format for float genes. */
    const format: real -> string
    /** GENE_LIST (see GeneListIsFit). */
    const genes: seq<Gene>

    ghost predicate Valid()
      reads this
    {
      Consistent(done, order, results, running, pending) && GenesFit(genes)
    }

    ghost predicate Ledger()
      reads this`done, this`order, this`results
    {
      LedgerOk(done, order, results)
    }

    /** __init__ followed by load_cache: the initial genomes wait to run,
        and done_genomes and results come from the cache (empty when
        there is none). */
    constructor(genes: seq<Gene>, cachedDone: map<string, string>, cachedOrder: seq<string>,
                cachedResults: map<string, Outcome>, format: real -> string)
      requires GenesFit(genes) && Consistent(cachedDone, cachedOrder, cachedResults, [], [])
      ensures Valid() && this.format == format && this.genes == genes
      ensures done == cachedDone && order == cachedOrder && results == cachedResults && running == []
      ensures |pending| == GenomeBits + 1 && pending[0] == InitialGenome(genes)
      ensures forall i :: 0 <= i < GenomeBits ==> |pending[0]| > i && pending[i + 1] == Flip(pending[0], i)
    {
      this.format := format;
      this.genes := genes;
      var initial := GetInitialGenomes(genes);
      running := [];
      pending := initial;
      done := cachedDone;
      order := cachedOrder;
      results := cachedResults;
    }

    /** The done genomes with their outcomes, in the order they were
        added. */
    function Entries(): seq<Entry>
      reads this`done, this`order, this`results
      requires Ledger()
    {
      EntriesOf(order, done, results)
    }

    /** get_best: the first done genome with the highest score, or None
        when none is done. */
    method GetBest() returns (best: Option<Entry>)
      requires Valid()
      ensures best.None? <==> |order| == 0
      ensures best.Some? ==> forall j :: 0 <= j < |order| ==> Score(Entries()[j]) <= Score(best.value)
      ensures best.Some? ==> exists i :: 0 <= i < |order| && Entries()[i] == best.value &&
                                         forall j :: 0 <= j < i ==> Score(Entries()[j]) < Score(best.value)
    {
      best := None;
      ghost var at := 0;
      for k := 0 to |order|
        invariant best.None? <==> k == 0
        invariant best.Some? ==> at < k && Entries()[at] == best.value
        invariant best.Some? ==> forall j :: 0 <= j < at ==> Score(Entries()[j]) < Score(best.value)
        invariant best.Some? ==> forall j :: 0 <= j < k ==> Score(Entries()[j]) <= Score(best.value)
      {
        var e := Entry(order[k], results[done[order[k]]]);
        if best.None? || e.outcome.score > best.value.outcome.score {
          best := Some(e);
          at := k;
        }
      }
    }

    /** get_bests(n): the n best done genomes, highest score first. */
    function GetBests(n: nat): (r: seq<Entry>)
      reads this`done, this`order, this`results
      requires Ledger()
      ensures |r| == Min(n, |order|) && SortedDesc(r)
      ensures multiset(r) <= multiset(Entries())
      ensures forall e, i :: e in multiset(Entries()) - multiset(r) && 0 <= i < |r| ==> Score(e) <= Score(r[i])
    {
      Best(Entries(), n)
    }

    /** best_genomes in get_next_genome: the (at most) eight best genomes
        scoring above zero. */
    function TopGenomes(): (top: seq<string>)
      reads this`done, this`order, this`results
      requires Ledger()
      ensures |top| <= 8 && AllGenomes(top)
    {
      EntryGenomes(done, order, results);
      BestGenomes(Entries(), 8);
      GenomesOf(Best(Positive(Entries()), 8))
    }

    /** Replace the waiting genomes by genomes. */
    method SetPending(rest: seq<string>)
      requires Valid() && AllGenomes(rest)
      modifies this`pending
      ensures Valid() && pending == rest
    {
      PendingReplaced(done, order, results, running, pending, rest);
      pending := rest;
    }

    /** get_next_genome: the next waiting genome; when none waits, breed
        from the best genomes and return the last child bred, keeping the
        others waiting. With no genome scoring above zero the driver fails
        (ZeroDivisionError) after one draw. */
    method GetNextGenome(rng: Random) returns (g: Option<string>)
      requires Valid()
      modifies this`pending, rng
      ensures Valid()
      ensures g.Some? ==> IsGenome(g.value)
      ensures GenomeDrawn(old(TopGenomes()), old(pending), old(rng.context), g, pending, rng.context)
    {
      if |pending| > 0 {
        g := Some(pending[0]);
        SetPending(pending[1..]);
        return;
      }
      var top := TopGenomes();
      if |top| == 0 {
        var _ := rng.Rand();
        g := None;
        return;
      }
      var rest, last := BreedStep(rng, top);
      g := Some(last);
      SetPending(rest);
    }

    /** any(r.genome == genome for r in self.running). */
    method IsRunning(genome: string) returns (b: bool)
      ensures b <==> RunsGenome(running, genome)
    {
      b := false;
      for i := 0 to |running|
        invariant b <==> exists k :: 0 <= k < i && running[k].genome == genome
      {
        if running[i].genome == genome {
          b := true;
        }
      }
    }

    /** A cache hit in run_new: the genome is filed under flags that
        already have an outcome. */
    method File(genome: string, params: string)
      requires Valid() && IsGenome(genome) && genome !in done && params in results
      requires forall i :: 0 <= i < |running| ==> running[i].genome != genome
      modifies this`done, this`order
      ensures Valid() && done == old(done)[genome := params] && order == old(order) + [genome]
    {
      LedgerAdd(done, order, results, genome, params);
      done := done[genome := params];
      order := order + [genome];
    }

    /** The end of run_new: a run of a genome neither done nor running
        joins the runs. */
    method Start(r: Run)
      requires Valid() && IsGenome(r.genome) && r.genome !in done
      requires forall i :: 0 <= i < |running| ==> running[i].genome != r.genome
      modifies this`running
      ensures Valid() && running == old(running) + [r]
    {
      running := running + [r];
    }

    /** The body of run_new's loop after the draw: skip a genome that is
        done or running, file a cache hit, or start a run. None means
        draw again. */
    method Consider(genome: string) returns (status: Option<Status>)
      requires Valid() && IsGenome(genome)
      modifies this`done, this`order, this`running
      ensures Valid()
      ensures CacheHits(genes, old(done), old(order), done, order, format)
      ensures status != Some(Started) ==> running == old(running)
      ensures status == None || status == Some(Started)
      ensures status == Some(Started) ==>
        |running| > 0 && running == old(running) + [running[|running| - 1]] &&
        Launched(genes, running[|running| - 1], results, format) &&
        running[|running| - 1].abortThreshold == AbortFor(GetBests(20))
      ensures Decided(genes, format, results, AbortFor(GetBests(20)), genome, old(done), old(order), old(running),
                      status, done, order, running)
    {
      ghost var done0, order0 := done, order;
      assert order[..|order|] == order;
      if genome in done {
        return None;
      }
      var busy := IsRunning(genome);
      if busy {
        return None;
      }
      var params := GenomeParams(genes, genome, format);
      if params in results {
        File(genome, params);
        return None;
      }
      var threshold := AbortFor(GetBests(20));
      Start(Run(genome, params, threshold));
      return Some(Started);
    }

    /** One pass of run_new's loop: draw a genome and consider it. The
        driver crashes when get_next_genome finds no genome to breed
        from. */
    method Attempt(rng: Random) returns (status: Option<Status>, drawn: Option<string>)
      requires Valid()
      modifies this`done, this`order, this`running, this`pending, rng
      ensures Valid()
      ensures GenomeDrawn(old(TopGenomes()), old(pending), old(rng.context), drawn, pending, rng.context)
      ensures drawn.None? ==> status == Some(Crashed)
      ensures drawn.Some? ==> IsGenome(drawn.value)
      ensures drawn.Some? ==>
        Decided(genes, format, results, AbortFor(GetBests(20)), drawn.value, old(done), old(order), old(running),
                status, done, order, running)
      ensures CacheHits(genes, old(done), old(order), done, order, format)
      ensures status != Some(Started) ==> running == old(running)
      ensures status == None || status == Some(Started) || status == Some(Crashed)
      ensures status == Some(Started) ==>
        |running| > 0 && running == old(running) + [running[|running| - 1]] &&
        Launched(genes, running[|running| - 1], results, format) &&
        running[|running| - 1].abortThreshold == AbortFor(GetBests(20))
      ensures status == Some(Crashed) <==> old(pending) == [] && old(TopGenomes()) == []
      ensures status == Some(Crashed) ==> done == old(done) && order == old(order) && pending == []
    {
      ghost var done0, order0 := done, order;
      drawn := GetNextGenome(rng);
      if drawn.None? {
        assert order[..|order|] == order;
        return Some(Crashed), drawn;
      }
      status := Consider(drawn.value);
    }

    /** run_new: draw genomes until one is neither done, running nor a
        cache hit, filing the cache hits on the way, and start a run of
        it whose abort thresholds come from the 20 best done genomes. The
        driver loops for ever; here it gives up after fuel draws, and
        reports the crash get_next_genome ends in when no genome scores. */
    method RunNew(rng: Random, fuel: nat) returns (status: Status)
      requires Valid()
      modifies this`done, this`order, this`running, this`pending, rng
      ensures Valid()
      ensures CacheHits(genes, old(done), old(order), done, order, format)
      ensures status != Started ==> running == old(running)
      ensures status == Started ==>
        |running| > 0 && running == old(running) + [running[|running| - 1]] &&
        Launched(genes, running[|running| - 1], results, format) &&
        running[|running| - 1].abortThreshold == AbortFor(GetBests(20))
      ensures status == Crashed ==> pending == [] && TopGenomes() == []
      ensures fuel > 0 && old(pending) == [] && old(TopGenomes()) == [] ==>
        status == Crashed && done == old(done) && order == old(order)
    {
      ghost var done0, order0 := done, order;
      ghost var doomed := pending == [] && TopGenomes() == [];
      assert order[..|order|] == order;
      var f := fuel;
      while f > 0
        invariant Valid()
        invariant CacheHits(genes, done0, order0, done, order, format)
        invariant running == old(running)
        invariant f == fuel ==> doomed == (pending == [] && TopGenomes() == []) && done == done0 && order == order0
        invariant f < fuel ==> !doomed
        decreases f
      {
        f := f - 1;
        var step := Pass(rng, done0, order0, doomed && f + 1 == fuel);
        if step.Some? {
          return step.value;
        }
      }
      return OutOfFuel;
    }

    /** One turn of run_new's loop: Attempt, with the cache hits filed since
        the loop began; a crash only comes when the loop began with nothing
        to draw, which then is its first turn. */
    method Pass(rng: Random, ghost done0: map<string, string>, ghost order0: seq<string>, ghost first: bool)
      returns (status: Option<Status>)
      requires Valid() && CacheHits(genes, done0, order0, done, order, format)
      requires first ==> done == done0 && order == order0
      modifies this`done, this`order, this`running, this`pending, rng
      ensures Valid() && CacheHits(genes, done0, order0, done, order, format)
      ensures status != Some(Started) ==> running == old(running)
      ensures status == Some(Started) ==>
        |running| > 0 && running == old(running) + [running[|running| - 1]] &&
        Launched(genes, running[|running| - 1], results, format) &&
        running[|running| - 1].abortThreshold == AbortFor(GetBests(20))
      ensures status == Some(Crashed) ==> pending == [] && TopGenomes() == []
      ensures status == Some(Crashed) <==> old(pending) == [] && old(TopGenomes()) == []
      ensures first && status == Some(Crashed) ==> done == done0 && order == order0
    {
      ghost var d, o := done, order;
      var drawn;
      status, drawn := Attempt(rng);
      CacheHitsTrans(genes, done0, order0, d, o, done, order, format);
    }

    /** The first loop of ping, from the last run to the first: a run
        with an outcome has it recorded under its flags, its genome filed,
        and leaves the runs. The outcomes are what poll reports, one per
        run. */
    method Harvest(outs: seq<Option<Outcome>>)
      requires Valid() && |outs| == |running|
      modifies this`done, this`order, this`results, this`running
      ensures Valid()
      ensures running == Waiting(old(running), outs)
      ensures results == Recorded(old(results), old(running), outs)
      ensures done == Filed(old(done), old(running), outs)
      ensures order == old(order) + Finished(old(running), outs)
    {
      var waiting, filed, added, recorded := HarvestLoop(running, outs, done, order, results);
      HarvestConsistent(done, order, results, running, pending, outs);
      running, done, order, results := waiting, filed, added, recorded;
    }

    /** ping's second loop: start runs until eight are in progress. */
    /** run_new as seen from the refill loop: the abort threshold of the
        new run is not needed there. */
    method Launch(rng: Random, fuel: nat) returns (status: Status)
      requires Valid()
      modifies this`done, this`order, this`running, this`pending, rng
      ensures Valid()
      ensures CacheHits(genes, old(done), old(order), done, order, format)
      ensures status != Started ==> running == old(running)
      ensures status == Started ==>
        |running| == |old(running)| + 1 && running == old(running) + [running[|old(running)|]] &&
        Launched(genes, running[|old(running)|], results, format)
    {
      status := RunNew(rng, fuel);
    }

    /** ping's second loop: run_new until eight runs are in progress, or until run_new gives up. Every run started was launched from the genomes and flags it was drawn with. */
    method Refill(rng: Random, fuel: nat) returns (status: Status)
      requires Valid()
      modifies this`done, this`order, this`running, this`pending, rng
      ensures Valid()
      ensures CacheHits(genes, old(done), old(order), done, order, format)
      ensures |old(running)| <= |running| && running == old(running) + running[|old(running)|..]
      ensures AllLaunched(genes, running[|old(running)|..], results, format)
      ensures status == Started ==> |running| == Max(MaxParallel, |old(running)|)
      ensures status != Started ==> |running| < MaxParallel
    {
      ghost var done0, order0, running0 := done, order, running;
      ghost var added: seq<Run> := [];
      assert order[..|order|] == order && running == running0 + added;
      status := Started;
      while |running| < MaxParallel
        invariant Valid()
        invariant CacheHits(genes, done0, order0, done, order, format)
        invariant running == running0 + added && |running| <= Max(MaxParallel, |running0|)
        invariant AllLaunched(genes, added, results, format)
        invariant status == Started
        decreases MaxParallel - |running|
      {
        status, added := RefillStep(rng, fuel, done0, order0, running0, added);
        if status != Started {
          break;
        }
      }
      assert running[|running0|..] == added;
    }

    /** One turn of the refill loop: one more run is started, or run_new
        gives up and nothing is started. */
    method RefillStep(rng: Random, fuel: nat, ghost done0: map<string, string>, ghost order0: seq<string>,
                      ghost running0: seq<Run>, ghost added: seq<Run>)
      returns (status: Status, ghost added': seq<Run>)
      requires Valid() && |running| < MaxParallel
      requires CacheHits(genes, done0, order0, done, order, format)
      requires running == running0 + added && AllLaunched(genes, added, results, format)
      modifies this`done, this`order, this`running, this`pending, rng
      ensures Valid()
      ensures CacheHits(genes, done0, order0, done, order, format)
      ensures running == running0 + added' && AllLaunched(genes, added', results, format)
      ensures status == Started ==> |running| == |old(running)| + 1
      ensures status != Started ==> added' == added
    {
      ghost var d, o, before := done, order, running;
      status := Launch(rng, fuel);
      CacheHitsTrans(genes, done0, order0, d, o, done, order, format);
      added' := added;
      if status == Started {
        ghost var r := running[|before|];
        AllLaunchedSnoc(genes, added, r, results, format);
        added' := added + [r];
        assert running == running0 + added';
      }
    }

    /** ping: record the finished runs, then start runs until eight are
        in progress. The report of the best genome is not modelled. */
    method Ping(outs: seq<Option<Outcome>>, rng: Random, fuel: nat) returns (status: Status)
      requires Valid() && |outs| == |running|
      modifies this`done, this`order, this`results, this`running, this`pending, rng
      ensures Valid()
      ensures results == Recorded(old(results), old(running), outs)
      ensures CacheHits(genes, Filed(old(done), old(running), outs), old(order) + Finished(old(running), outs), done, order, format)
      ensures var w := Waiting(old(running), outs);
        |w| <= |running| && running == w + running[|w|..] &&
        AllLaunched(genes, running[|w|..], results, format) &&
        (status == Started ==> |running| == Max(MaxParallel, |w|)) &&
        (status != Started ==> |running| < MaxParallel)
    {
      Harvest(outs);
      status := Refill(rng, fuel);
    }
  }
}
