/** Records of the trichinosis workflow (src/types.ts) and the way the pool
    list renders its numbers and compositions as text. */
module Records {

  /** A source group of animals. `isInternal` is the 0/1 flag the tropa form sends. */
  datatype Tropa = Tropa(id: int, tropaNumber: string, totalAnimals: int, isInternal: int)

  /** One contribution to a pool: `count` animals of the tropa numbered `tropa`. */
  datatype Part = Part(tropa: string, count: int)

  /** What the allocator computes for one pool before it is stored. */
  datatype Draft = Draft(number: string, sampleCount: int, weight: int,
                         rangeStart: int, rangeEnd: int, composition: seq<Part>)

  datatype Verdict = Pending | ND | P

  /** A stored pool: the store's id, the allocator's draft and the recorded result. */
  datatype Pool = Pool(id: int, draft: Draft, result: Verdict, larvae: int, observations: string)

  datatype Kind = Normal | Sospechosa

  datatype Error =
    | NoOpenJornada
    | NoTropas
    | InvalidResult
    | PoolNotFound
    | NoPools
    | PendingPools(count: nat)
    | Cancelled

  datatype Result<T> = Ok(value: T) | Err(error: Error)

  datatype Option<T> = None | Some(value: T)

  // ---------------------------------------------------------------------
  // Sums over compositions and pool lists

  function SumCounts(c: seq<Part>): int {
    if c == [] then 0 else SumCounts(c[..|c| - 1]) + c[|c| - 1].count
  }

  lemma {:induction false} SumCountsAppend(a: seq<Part>, b: seq<Part>)
    ensures SumCounts(a + b) == SumCounts(a) + SumCounts(b)
    decreases |b|
  {
    if b == [] {
      assert a + b == a;
    } else {
      assert (a + b)[..|a + b| - 1] == a + b[..|b| - 1];
      SumCountsAppend(a, b[..|b| - 1]);
    }
  }

  /** Every part of `c` carries at least one animal. */
  predicate PositiveParts(c: seq<Part>) {
    forall i :: 0 <= i < |c| ==> c[i].count > 0
  }

  /** The compositions of all pools, in pool order. */
  function Flatten(ds: seq<Draft>): seq<Part> {
    if ds == [] then [] else Flatten(ds[..|ds| - 1]) + ds[|ds| - 1].composition
  }

  function SumSamples(ds: seq<Draft>): int {
    if ds == [] then 0 else SumSamples(ds[..|ds| - 1]) + ds[|ds| - 1].sampleCount
  }

  lemma FlattenSnoc(ds: seq<Draft>, d: Draft)
    ensures Flatten(ds + [d]) == Flatten(ds) + d.composition
    ensures SumSamples(ds + [d]) == SumSamples(ds) + d.sampleCount
  {
    assert (ds + [d])[..|ds|] == ds;
  }

  // ---------------------------------------------------------------------
  // Decimal numbers and the zero-padded pool number

  function DigitChar(d: int): char
    requires 0 <= d < 10
  {
    (48 + d) as char
  }

  function DigitValue(c: char): nat {
    if '0' <= c <= '9' then c as int - 48 else 0
  }

  predicate IsDigit(c: char) {
    '0' <= c <= '9'
  }

  /** `n.toString()` for a natural number. */
  function Decimal(n: nat): (s: string)
    ensures |s| >= 1
    ensures forall i :: 0 <= i < |s| ==> IsDigit(s[i])
  {
    if n < 10 then [DigitChar(n)] else Decimal(n / 10) + [DigitChar(n % 10)]
  }

  /** Reads a string of decimal digits back as a number. */
  function ParseDecimal(s: string): nat {
    if s == [] then 0
    else ParseDecimal(s[..|s| - 1]) * 10 + DigitValue(s[|s| - 1])
  }

  lemma {:induction false} DecimalRoundTrip(n: nat)
    ensures ParseDecimal(Decimal(n)) == n
    decreases n
  {
    if n >= 10 {
      var s := Decimal(n);
      assert s[..|s| - 1] == Decimal(n / 10);
      DecimalRoundTrip(n / 10);
    }
  }

  lemma {:induction false} DecimalLength(n: nat)
    ensures n < 10 ==> |Decimal(n)| == 1
    ensures 10 <= n < 100 ==> |Decimal(n)| == 2
    ensures 100 <= n < 1000 ==> |Decimal(n)| == 3
    ensures 1000 <= n ==> |Decimal(n)| > 3
    decreases n
  {
    if n >= 10 {
      DecimalLength(n / 10);
    }
  }

  function Zeros(k: nat): (z: string)
    ensures |z| == k && forall i :: 0 <= i < k ==> z[i] == '0'
  {
    if k == 0 then [] else Zeros(k - 1) + ['0']
  }

  /** `s.padStart(width, '0')`: zeros in front up to `width`, never truncating. */
  function PadStart(s: string, width: nat): string {
    if |s| >= width then s else Zeros(width - |s|) + s
  }

  /** `(k).toString().padStart(3, '0')`, the display number of the k-th pool. */
  function PoolNumber(k: nat): string {
    PadStart(Decimal(k), 3)
  }

  lemma {:induction false} ParseLeadingZeros(k: nat, s: string)
    ensures ParseDecimal(Zeros(k) + s) == ParseDecimal(s)
    decreases |s|, k
  {
    if s == [] {
      assert Zeros(k) + s == Zeros(k);
      if k > 0 {
        assert Zeros(k)[..k - 1] == Zeros(k - 1);
        ParseLeadingZeros(k - 1, []);
        assert Zeros(k - 1) + [] == Zeros(k - 1);
      }
    } else {
      assert (Zeros(k) + s)[..|Zeros(k) + s| - 1] == Zeros(k) + s[..|s| - 1];
      ParseLeadingZeros(k, s[..|s| - 1]);
    }
  }

  /** The pool number reads back as the pool's position, so no two pools of one
      generation share a number; up to 999 it is exactly three characters. */
  lemma PoolNumberRoundTrip(k: nat)
    ensures ParseDecimal(PoolNumber(k)) == k
    ensures |PoolNumber(k)| == 3 <==> k <= 999
    ensures forall i :: 0 <= i < |PoolNumber(k)| ==> IsDigit(PoolNumber(k)[i])
  {
    DecimalRoundTrip(k);
    DecimalLength(k);
    var s := Decimal(k);
    if |s| < 3 {
      ParseLeadingZeros(3 - |s|, s);
    }
  }

  lemma PoolNumbersDistinct(j: nat, k: nat)
    requires j != k
    ensures PoolNumber(j) != PoolNumber(k)
  {
    PoolNumberRoundTrip(j);
    PoolNumberRoundTrip(k);
  }

  /** Strict lexicographic order on strings, the order a plain string sort uses. */
  predicate LexLess(s: string, t: string) {
    exists i :: 0 <= i <= |s| && i <= |t| && s[..i] == t[..i] &&
      ((i < |s| && i < |t| && s[i] < t[i]) || (i == |s| && i < |t|))
  }

  lemma ThreeDigitValue(s: string)
    requires |s| == 3 && forall i :: 0 <= i < 3 ==> IsDigit(s[i])
    ensures ParseDecimal(s) == 100 * DigitValue(s[0]) + 10 * DigitValue(s[1]) + DigitValue(s[2])
  {
    var s1, s2 := s[..1], s[..2];
    assert s1[..0] == [] && s1[0] == s[0];
    assert ParseDecimal(s1) == DigitValue(s[0]);
    assert s2[..1] == s1 && s2[1] == s[1];
    assert ParseDecimal(s2) == 10 * DigitValue(s[0]) + DigitValue(s[1]);
    assert s[..|s| - 1] == s2;
  }

  /** Sorting the pool list by its number (as the screen does when it reloads
      the pools) keeps generation order for the first 999 pools. */
  lemma PoolNumberOrder(j: nat, k: nat)
    requires j < k <= 999
    ensures LexLess(PoolNumber(j), PoolNumber(k))
  {
    PoolNumberRoundTrip(j);
    PoolNumberRoundTrip(k);
    var s, t := PoolNumber(j), PoolNumber(k);
    ThreeDigitValue(s);
    ThreeDigitValue(t);
    if s[0] != t[0] {
      assert s[..0] == t[..0];
    } else if s[1] != t[1] {
      assert s[..1] == t[..1];
    } else {
      assert s[..2] == t[..2];
    }
  }

  // ---------------------------------------------------------------------
  // Composition texts: `composition`, `composition_tropas`, `composition_counts`

  /** `items.join(sep)`. */
  function Join(sep: string, items: seq<string>): string {
    if |items| == 0 then ""
    else if |items| == 1 then items[0]
    else Join(sep, items[..|items| - 1]) + sep + items[|items| - 1]
  }

  lemma {:induction false} JoinAppend(sep: string, a: seq<string>, b: seq<string>)
    requires |a| > 0 && |b| > 0
    ensures Join(sep, a + b) == Join(sep, a) + sep + Join(sep, b)
    decreases |b|
  {
    if |b| == 1 {
      assert (a + b)[..|a + b| - 1] == a;
    } else {
      assert (a + b)[..|a + b| - 1] == a + b[..|b| - 1];
      JoinAppend(sep, a, b[..|b| - 1]);
    }
  }

  /** `${n}` for an integer. */
  function IntText(n: int): string {
    if n >= 0 then Decimal(n) else "-" + Decimal(-n)
  }

  function Labels(c: seq<Part>): (r: seq<string>)
    ensures |r| == |c| && forall i :: 0 <= i < |c| ==> r[i] == c[i].tropa
  {
    seq(|c|, i requires 0 <= i < |c| => c[i].tropa)
  }

  function CountTexts(c: seq<Part>): (r: seq<string>)
    ensures |r| == |c| && forall i :: 0 <= i < |c| ==> r[i] == IntText(c[i].count)
  {
    seq(|c|, i requires 0 <= i < |c| => IntText(c[i].count))
  }

  function PartTexts(c: seq<Part>): (r: seq<string>)
    ensures |r| == |c|
    ensures forall i :: 0 <= i < |c| ==> r[i] == c[i].tropa + "(" + IntText(c[i].count) + ")"
  {
    seq(|c|, i requires 0 <= i < |c| => c[i].tropa + "(" + IntText(c[i].count) + ")")
  }

  /** `composition_tropas`: tropa numbers joined with '/'. */
  function TropasText(c: seq<Part>): string {
    Join("/", Labels(c))
  }

  /** `composition_counts`: counts joined with '/'. */
  function CountsText(c: seq<Part>): string {
    Join("/", CountTexts(c))
  }

  /** `composition`: "tropa(count)" items joined with ", ". */
  function CompositionText(c: seq<Part>): string {
    Join(", ", PartTexts(c))
  }

  /** Concatenating two compositions renders exactly as the source's string
      concatenation of the two rendered texts, for all three texts. */
  lemma MergedTexts(a: seq<Part>, b: seq<Part>)
    requires |a| > 0 && |b| > 0
    ensures TropasText(a + b) == TropasText(a) + "/" + TropasText(b)
    ensures CountsText(a + b) == CountsText(a) + "/" + CountsText(b)
    ensures CompositionText(a + b) == CompositionText(a) + ", " + CompositionText(b)
  {
    assert Labels(a + b) == Labels(a) + Labels(b);
    assert CountTexts(a + b) == CountTexts(a) + CountTexts(b);
    assert PartTexts(a + b) == PartTexts(a) + PartTexts(b);
    JoinAppend("/", Labels(a), Labels(b));
    JoinAppend("/", CountTexts(a), CountTexts(b));
    JoinAppend(", ", PartTexts(a), PartTexts(b));
  }

  /** `s.split(sep)` for a one-character separator. */
  function Split(sep: char, s: string): (r: seq<string>)
    ensures |r| >= 1
  {
    if s == [] then [""]
    else
      var rest := Split(sep, s[..|s| - 1]);
      if s[|s| - 1] == sep then rest + [""]
      else rest[..|rest| - 1] + [rest[|rest| - 1] + [s[|s| - 1]]]
  }

  lemma {:induction false} SplitNoSep(sep: char, s: string)
    requires sep !in s
    ensures Split(sep, s) == [s]
    decreases |s|
  {
    if s != [] {
      SplitNoSep(sep, s[..|s| - 1]);
      assert s[..|s| - 1] + [s[|s| - 1]] == s;
    }
  }

  lemma SplitSnoc(sep: char, s: string, c: char)
    ensures var r := Split(sep, s);
      Split(sep, s + [c]) == if c == sep then r + [""] else r[..|r| - 1] + [r[|r| - 1] + [c]]
  {
    assert (s + [c])[..|s|] == s;
  }

  lemma ExtendLastField(r: seq<string>, ry: seq<string>, c: char)
    requires |ry| >= 1
    ensures var rr := r + ry;
      rr[..|rr| - 1] + [rr[|rr| - 1] + [c]] == r + (ry[..|ry| - 1] + [ry[|ry| - 1] + [c]])
  {
  }

  lemma {:induction false} SplitAtSep(sep: char, x: string, y: string)
    ensures Split(sep, x + [sep] + y) == Split(sep, x) + Split(sep, y)
    decreases |y|
  {
    if y == [] {
      SplitSnoc(sep, x, sep);
      assert x + [sep] + y == x + [sep];
    } else {
      var y' := y[..|y| - 1];
      var c := y[|y| - 1];
      assert y' + [c] == y;
      assert x + [sep] + y == (x + [sep] + y') + [c];
      SplitAtSep(sep, x, y');
      SplitSnoc(sep, x + [sep] + y', c);
      SplitSnoc(sep, y', c);
      if c != sep {
        ExtendLastField(Split(sep, x), Split(sep, y'), c);
      }
    }
  }

  /** Splitting a joined list on its separator gives the list back, when no item
      contains the separator. */
  lemma {:induction false} SplitJoin(sep: char, items: seq<string>)
    requires |items| > 0
    requires forall i :: 0 <= i < |items| ==> sep !in items[i]
    ensures Split(sep, Join([sep], items)) == items
    decreases |items|
  {
    if |items| == 1 {
      SplitNoSep(sep, items[0]);
    } else {
      var init := items[..|items| - 1];
      SplitJoin(sep, init);
      SplitAtSep(sep, Join([sep], init), items[|items| - 1]);
      SplitNoSep(sep, items[|items| - 1]);
    }
  }

  lemma IntTextHasNoSlash(n: int)
    ensures '/' !in IntText(n)
  {
    var d := Decimal(if n >= 0 then n else -n);
    assert forall i :: 0 <= i < |d| ==> d[i] != '/';
    if n < 0 {
      assert IntText(n) == "-" + d;
    }
  }

  /** The two '/'-separated texts of a composition stay positionally aligned:
      each splits back into one field per part, field i of the counts text reads
      back as part i's count, and field i of the tropas text is part i's tropa
      number when no tropa number itself contains '/'. */
  lemma CompositionAlignment(c: seq<Part>)
    requires |c| > 0
    ensures Split('/', CountsText(c)) == CountTexts(c)
    ensures forall i :: 0 <= i < |c| && c[i].count >= 0 ==>
              ParseDecimal(Split('/', CountsText(c))[i]) == c[i].count
    ensures (forall i :: 0 <= i < |c| ==> '/' !in c[i].tropa) ==>
              Split('/', TropasText(c)) == Labels(c)
  {
    forall i | 0 <= i < |c| {
      IntTextHasNoSlash(c[i].count);
    }
    SplitJoin('/', CountTexts(c));
    forall i | 0 <= i < |c| && c[i].count >= 0 {
      DecimalRoundTrip(c[i].count);
    }
    if forall i :: 0 <= i < |c| ==> '/' !in c[i].tropa {
      SplitJoin('/', Labels(c));
    }
  }
}
