/** Size classes: the generator loops of the configuration script, and the shift formulas
    that map a request to a class without a table. */
module SizeClasses {
  import opened Bits

  datatype Option<T> = None | Some(value: T)

  /** TSALLOC_ALLOC_MAX, 2^62. */
  const ALLOC_MAX: nat := 0x4000_0000_0000_0000
  const UINT16_MAX: nat := 65535

  datatype Config = Config(pageSize: nat, minAlign: nat, steps: nat, slabMax: nat) {
    predicate Positive() {
      pageSize > 0 && minAlign > 0 && steps > 0
    }
    /** What the command line of the script enforces; `steps` may be any positive number there. */
    ghost predicate Valid() {
      && Positive() && IsPow2(pageSize) && IsPow2(minAlign) && IsPow2(slabMax)
      && minAlign <= pageSize <= ALLOC_MAX
    }
    ghost predicate Pow2Steps() {
      Valid() && IsPow2(steps)
    }
  }

  // ----- the sequence of classes, in closed form -----

  /** Class `o` of doubling `e`, in units. */
  function At(s: nat, e: nat, o: nat): (u: nat)
    requires s > 0 && e > 0
    ensures u > 0
  {
    MulMono(1, s + o + 1, Pow2(e - 1));
    (s + o + 1) * Pow2(e - 1)
  }

  /** Size of class `c` in units: one unit apart below `s`, then `s` classes per doubling. */
  function Units(s: nat, c: nat): (u: nat)
    requires s > 0
    ensures u > 0
  {
    if c < s then c + 1 else Split(s, c); At(s, c / s, c % s)
  }

  lemma Split(s: nat, c: nat)
    requires s > 0 && c >= s
    ensures c / s >= 1 && c % s < s && c == s * (c / s) + c % s
  {
    var q := c / s;
    assert q == 0 ==> s * q == 0;
  }

  lemma UnitsAt(s: nat, e: nat, o: nat)
    requires s > 0 && e > 0 && o < s
    ensures s * e + o >= s && Units(s, s * e + o) == At(s, e, o)
  {
    DivUnique(s * e + o, s, e, o);
    MulMono(1, e, s);
  }

  /** The distance from class `c` to the next one, in units. */
  function Gap(s: nat, c: nat): nat
    requires s > 0
  {
    if c < s then 1 else Split(s, c); if c % s == s - 1 then Pow2(c / s) else Pow2(c / s - 1)
  }

  lemma AtNext(s: nat, e: nat, o: nat)
    requires s > 0 && e > 0
    ensures At(s, e, o + 1) == At(s, e, o) + Pow2(e - 1) && Pow2(e - 1) <= At(s, e, o)
  {
    var p := Pow2(e - 1);
    assert (s + o + 2) * p == (s + o + 1) * p + p;
    MulMono(1, s + o + 1, p);
  }

  /** The last class of a doubling, and the step to the first class of the next one. */
  lemma AtWrap(s: nat, e: nat)
    requires s > 0 && e > 0
    ensures At(s, e + 1, 0) == At(s, e, s - 1) + Pow2(e)
    ensures Pow2(e) <= At(s, e, s - 1) == s * Pow2(e)
  {
    Doubled(s, Pow2(e - 1));
    MulMono(1, s, Pow2(e));
  }

  lemma Doubled(s: nat, p: nat)
    ensures (s + s) * p == s * (2 * p)
    ensures (s + 1) * (2 * p) == s * (2 * p) + 2 * p
  {
  }

  lemma UnitsNextAt(s: nat, e: nat, o: nat)
    requires s > 0 && e > 0 && o < s
    ensures var gap := if o == s - 1 then Pow2(e) else Pow2(e - 1);
      Units(s, s * e + o + 1) == Units(s, s * e + o) + gap && 1 <= gap <= Units(s, s * e + o)
  {
    hide Pow2, Units;
    UnitsAt(s, e, o);
    Pow2Positive(e);
    Pow2Positive(e - 1);
    if o + 1 < s {
      UnitsAt(s, e, o + 1);
      AtNext(s, e, o);
    } else {
      Distribute(s, e, 1);
      UnitsAt(s, e + 1, 0);
      AtWrap(s, e);
    }
  }

  lemma Pow2Positive(e: nat)
    ensures Pow2(e) >= 1
  {
  }

  lemma UnitsNext(s: nat, c: nat)
    requires s > 0
    ensures Units(s, c + 1) == Units(s, c) + Gap(s, c)
    ensures 1 <= Gap(s, c) <= Units(s, c)
  {
    if c + 1 == s {
      UnitsAt(s, 1, 0);
    } else if c >= s {
      Split(s, c);
      UnitsNextAt(s, c / s, c % s);
    }
  }

  lemma {:induction false} UnitsStrict(s: nat, c: nat, d: nat)
    requires s > 0 && c < d
    ensures Units(s, c) < Units(s, d)
    decreases d
  {
    UnitsNext(s, d - 1);
    if c < d - 1 {
      UnitsStrict(s, c, d - 1);
    }
  }

  // ----- the generator loops -----

  function Max(a: nat, b: nat): nat {
    if a > b then a else b
  }

  /** The step of both loops before the span loop rounds it down to whole pages. */
  function Step(unit: nat, steps: nat, size: nat): (step: nat)
    requires steps > 0 && size > 0
    ensures step >= unit
  {
    Max(unit, Pow2(Log2(size)) / steps)
  }

  lemma Scale(k: nat, p: nat, u: nat, q: nat)
    requires p <= u < q && k > 0
    ensures k * p <= k * u < k * q
  {
    MulMono(p, u, k);
    MulMono(u + 1, q, k);
  }

  lemma ScaleTop(k: nat, p: nat, u: nat)
    requires p <= u < 2 * p && k > 0
    ensures k * p <= k * u < 2 * (k * p)
  {
    Scale(k, p, u, 2 * p);
    assert k * (2 * p) == 2 * (k * p);
  }

  lemma Log2At(n: nat, k: nat, low: nat)
    requires low == Pow2(k) && low <= n < 2 * low
    ensures n > 0 && Pow2(Log2(n)) == low
  {
    Log2Unique(n, k);
  }

  lemma ScaleBounds(unit: nat, u: nat, k: nat, low: nat)
    requires IsPow2(unit) && u > 0 && k == Log2(unit) + Log2(u) && low == unit * Pow2(Log2(u))
    ensures low == Pow2(k) && low <= unit * u < 2 * low
  {
    IsPow2Log(unit);
    Pow2Add(Log2(unit), Log2(u));
    ScaleTop(unit, Pow2(Log2(u)), u);
  }

  /** Scaling by a power of two scales the highest bit. */
  lemma Log2Scale(unit: nat, u: nat, n: nat, low: nat)
    requires IsPow2(unit) && u > 0 && n == unit * u && low == unit * Pow2(Log2(u))
    ensures n > 0 && Pow2(Log2(n)) == low
  {
    var k := Log2(unit) + Log2(u);
    ScaleBounds(unit, u, k, low);
    Log2At(n, k, low);
  }

  lemma TopBitInside(s: nat, e: nat, o: nat)
    requires IsPow2(s) && e > 0 && o + 1 < s
    ensures Pow2(Log2(At(s, e, o))) == s * Pow2(e - 1)
  {
    hide Pow2, Log2;
    IsPow2Log(s);
    var k, p := Log2(s), Pow2(e - 1);
    var n := At(s, e, o);
    assert s * p == Pow2(k + (e - 1)) by { Pow2Add(k, e - 1); }
    assert p * s <= n < 2 * (p * s) by { ScaleTop(p, s, s + o + 1); }
    Pow2Next(k + (e - 1));
    Log2Unique(n, k + (e - 1));
  }

  lemma TopBitWrap(s: nat, e: nat)
    requires IsPow2(s) && e > 0
    ensures Pow2(Log2(At(s, e, s - 1))) == s * Pow2(e)
  {
    IsPow2Log(s);
    AtWrap(s, e);
    Pow2Add(Log2(s), e);
    Log2Pow2(Log2(s) + e);
  }

  /** The highest bit of a class size: from class `s` on it is `s` times the gap to the next class. */
  lemma TopBit(s: nat, c: nat)
    requires IsPow2(s)
    ensures if c < s then Pow2(Log2(Units(s, c))) <= s
            else Pow2(Log2(Units(s, c))) == s * Gap(s, c)
  {
    if c >= s {
      Split(s, c);
      if c % s + 1 < s {
        TopBitInside(s, c / s, c % s);
      } else {
        TopBitWrap(s, c / s);
      }
    }
  }

  lemma DivBound(x: nat, d: nat, q: nat)
    requires d > 0 && x <= q * d
    ensures x / d <= q
  {
    assert x == d * (x / d) + x % d;
    MulCancel(d, q, x / d);
  }

  lemma StepLow(unit: nat, s: nat, p: nat)
    requires s > 0 && p <= s
    ensures Max(unit, (unit * p) / s) == unit
  {
    MulMono(p, s, unit);
    DivBound(unit * p, s, unit);
  }

  lemma StepHigh(unit: nat, s: nat, g: nat)
    requires s > 0 && g > 0
    ensures Max(unit, (unit * (s * g)) / s) == unit * g
  {
    Assoc(unit, s, g);
    MulDiv(s, unit * g);
    MulMono(1, g, unit);
  }

  lemma Distribute(k: nat, a: nat, b: nat)
    ensures k * (a + b) == k * a + k * b
  {
  }

  lemma Assoc(a: nat, b: nat, c: nat)
    ensures a * (b * c) == b * (a * c)
  {
    assert a * (b * c) == (a * b) * c;
  }

  /** One turn of either loop moves from one class to the next. */
  lemma StepIsGap(unit: nat, s: nat, c: nat)
    requires IsPow2(unit) && IsPow2(s)
    ensures unit * Units(s, c) > 0 && Step(unit, s, unit * Units(s, c)) == unit * Gap(s, c)
    ensures unit * Units(s, c) + unit * Gap(s, c) == unit * Units(s, c + 1)
  {
    hide Units, Pow2, Log2;
    var u, g := Units(s, c), Gap(s, c);
    assert Units(s, c + 1) == u + g && 1 <= g by { UnitsNext(s, c); }
    Distribute(unit, u, g);
    var p := Pow2(Log2(u));
    Log2Scale(unit, u, unit * u, unit * p);
    if c < s {
      assert p <= s && g == 1 by { TopBit(s, c); }
      StepLow(unit, s, p);
    } else {
      assert p == s * g by { TopBit(s, c); }
      StepHigh(unit, s, g);
    }
  }

  /** The span loop's step: rounded down to whole pages. */
  function SpanStep(cfg: Config, size: nat): nat
    requires cfg.Positive() && size > 0
  {
    Step(cfg.pageSize, cfg.steps, size) / cfg.pageSize * cfg.pageSize
  }

  /** The `i`-th value the slab loop's `size` takes. */
  function NthSlab(cfg: Config, i: nat): (size: nat)
    requires cfg.Positive()
    ensures size > 0
  {
    if i == 0 then cfg.minAlign
    else NthSlab(cfg, i - 1) + Step(cfg.minAlign, cfg.steps, NthSlab(cfg, i - 1))
  }

  function NthSpan(cfg: Config, i: nat): (size: nat)
    requires cfg.Positive()
    ensures size > 0
  {
    if i == 0 then cfg.pageSize
    else NthSpan(cfg, i - 1) + SpanStep(cfg, NthSpan(cfg, i - 1))
  }

  /** `t` lists the sizes up to the bound of the loop, all of them and in order. */
  ghost predicate IsSlabTable(cfg: Config, t: seq<nat>)
    requires cfg.Positive()
  {
    && (forall c: nat :: c < |t| <==> NthSlab(cfg, c) <= cfg.slabMax)
    && (forall c: nat {:trigger NthSlab(cfg, c)} :: c < |t| ==> t[c] == NthSlab(cfg, c))
  }

  ghost predicate IsSpanTable(cfg: Config, t: seq<nat>)
    requires cfg.Positive()
  {
    && (forall c: nat :: c < |t| <==> NthSpan(cfg, c) <= ALLOC_MAX)
    && (forall c: nat {:trigger NthSpan(cfg, c)} :: c < |t| ==> t[c] == NthSpan(cfg, c))
  }

  lemma NthNext(cfg: Config, i: nat)
    requires cfg.Positive()
    ensures NthSlab(cfg, 0) == cfg.minAlign && NthSpan(cfg, 0) == cfg.pageSize
    ensures NthSlab(cfg, i + 1) == NthSlab(cfg, i) + Step(cfg.minAlign, cfg.steps, NthSlab(cfg, i))
    ensures NthSpan(cfg, i + 1) == NthSpan(cfg, i) + SpanStep(cfg, NthSpan(cfg, i))
  {
  }

  lemma {:induction false} SlabsGrowTo(cfg: Config, i: nat, j: nat)
    requires cfg.Positive() && i <= j
    ensures NthSlab(cfg, i) <= NthSlab(cfg, j)
  {
    hide NthSlab, Step;
    if i < j {
      SlabsGrowTo(cfg, i, j - 1);
      NthNext(cfg, j - 1);
    }
  }

  lemma {:induction false} SpansGrowTo(cfg: Config, i: nat, j: nat)
    requires cfg.Positive() && i <= j
    ensures NthSpan(cfg, i) <= NthSpan(cfg, j)
  {
    hide NthSpan, Step;
    if i < j {
      SpansGrowTo(cfg, i, j - 1);
      NthNext(cfg, j - 1);
    }
  }

  /** The sizes never shrink, so a loop that stops at the first one out of bounds misses none. */
  lemma TablesGrow(cfg: Config)
    requires cfg.Positive()
    ensures forall i: nat, j: nat :: i <= j ==> NthSlab(cfg, i) <= NthSlab(cfg, j) && NthSpan(cfg, i) <= NthSpan(cfg, j)
  {
    hide NthSlab, NthSpan;
    forall i: nat, j: nat | i <= j ensures NthSlab(cfg, i) <= NthSlab(cfg, j) && NthSpan(cfg, i) <= NthSpan(cfg, j) {
      SlabsGrowTo(cfg, i, j);
      SpansGrowTo(cfg, i, j);
    }
  }

  /** None is the script's ValueError for more classes than an index can hold. */
  method GetSlabSizeClasses(cfg: Config) returns (classes: Option<seq<nat>>)
    requires cfg.Positive()
    ensures classes.Some? ==> IsSlabTable(cfg, classes.value) && |classes.value| <= UINT16_MAX
    ensures classes.None? ==> exists t :: IsSlabTable(cfg, t) && |t| > UINT16_MAX
  {
    hide Step, NthSlab;
    NthNext(cfg, 0);
    var t: seq<nat> := [];
    var size := cfg.minAlign;
    while size <= cfg.slabMax
      invariant size == NthSlab(cfg, |t|)
      invariant forall c :: 0 <= c < |t| ==> t[c] == NthSlab(cfg, c) <= cfg.slabMax
      decreases cfg.slabMax + 1 - size
    {
      NthNext(cfg, |t|);
      t := t + [size];
      size := size + Step(cfg.minAlign, cfg.steps, size);
    }
    TablesGrow(cfg);
    assert IsSlabTable(cfg, t);
    if |t| > UINT16_MAX {
      return None;
    }
    return Some(t);
  }

  method GetSpanSizeClasses(cfg: Config) returns (classes: Option<seq<nat>>)
    requires cfg.Positive()
    ensures classes.Some? ==> IsSpanTable(cfg, classes.value) && |classes.value| <= UINT16_MAX
    ensures classes.None? ==> exists t :: IsSpanTable(cfg, t) && |t| > UINT16_MAX
  {
    hide Step, NthSpan;
    NthNext(cfg, 0);
    var t: seq<nat> := [];
    var size := cfg.pageSize;
    while size <= ALLOC_MAX
      invariant size == NthSpan(cfg, |t|)
      invariant forall c :: 0 <= c < |t| ==> t[c] == NthSpan(cfg, c) <= ALLOC_MAX
      decreases ALLOC_MAX + 1 - size
    {
      NthNext(cfg, |t|);
      t := t + [size];
      var step := Step(cfg.pageSize, cfg.steps, size);
      WholePages(cfg.pageSize, step);
      step := step / cfg.pageSize * cfg.pageSize;
      size := size + step;
    }
    TablesGrow(cfg);
    assert IsSpanTable(cfg, t);
    if |t| > UINT16_MAX {
      return None;
    }
    return Some(t);
  }

  /** At least one page survives the rounding, so the loop makes progress. */
  lemma WholePages(page: nat, step: nat)
    requires 0 < page <= step
    ensures step / page * page >= page
  {
    assert step == page * (step / page) + step % page;
    MulMono(1, step / page, page);
  }

  lemma FirstUnit(s: nat)
    requires s > 0
    ensures Units(s, 0) == 1
  {
  }

  lemma {:induction false} NthSlabIs(cfg: Config, c: nat)
    requires cfg.Pow2Steps()
    ensures NthSlab(cfg, c) == cfg.minAlign * Units(cfg.steps, c)
  {
    hide Units, Gap, IsPow2, Step, NthSlab;
    FirstUnit(cfg.steps);
    if c == 0 {
      NthNext(cfg, 0);
    } else {
      NthSlabIs(cfg, c - 1);
      StepIsGap(cfg.minAlign, cfg.steps, c - 1);
      NthNext(cfg, c - 1);
    }
  }

  /** Rounding the step down to whole pages changes nothing. */
  lemma SpanStepIs(cfg: Config, c: nat)
    requires cfg.Pow2Steps()
    ensures var u := Units(cfg.steps, c);
      cfg.pageSize * u > 0 && SpanStep(cfg, cfg.pageSize * u) == cfg.pageSize * Gap(cfg.steps, c)
  {
    hide Units, Gap, IsPow2, Step;
    StepIsGap(cfg.pageSize, cfg.steps, c);
    MulDiv(cfg.pageSize, Gap(cfg.steps, c));
  }

  lemma {:induction false} NthSpanIs(cfg: Config, c: nat)
    requires cfg.Pow2Steps()
    ensures NthSpan(cfg, c) == cfg.pageSize * Units(cfg.steps, c)
  {
    hide Units, Gap, IsPow2, Step, SpanStep, NthSpan;
    FirstUnit(cfg.steps);
    if c == 0 {
      NthNext(cfg, 0);
    } else {
      NthSpanIs(cfg, c - 1);
      SpanStepIs(cfg, c - 1);
      StepIsGap(cfg.pageSize, cfg.steps, c - 1);
      NthNext(cfg, c - 1);
    }
  }

  /** Every power of two above the unit is a class size. */
  lemma Pow2IsClass(s: nat, k: nat) returns (c: nat)
    requires IsPow2(s)
    ensures Units(s, c) == Pow2(k)
  {
    IsPow2Log(s);
    var j := Log2(s);
    if k < j {
      Pow2Mono(k, j);
      Pow2Strict(k, j);
      c := Pow2(k) - 1;
    } else if k == j {
      c := s - 1;
    } else {
      var e := k - j;
      UnitsAt(s, e, s - 1);
      AtWrap(s, e);
      Pow2Add(j, e);
      c := s * e + (s - 1);
    }
  }

  // ----- the formula -----

  /** The class of a group number: how many whole pages come before the last requested byte. */
  function ClassOfGroup(steps: nat, grp: nat): int
    requires steps > 0
  {
    if grp < steps then grp
    else
      var shift := Log2(steps);
      var b := Log2(grp);
      Log2Mono(steps, grp);
      var epoch := b - shift + 1;
      var epochBasePages := Pow2(epoch + shift - 1);
      var step := Pow2(epoch - 1);
      var offset := (grp - epochBasePages) / step;
      epoch * Pow2(shift) + offset
  }

  lemma Log2Mono(a: nat, b: nat)
    requires 0 < a <= b
    ensures Log2(a) <= Log2(b)
  {
    if Log2(b) < Log2(a) {
      Pow2Mono(Log2(b) + 1, Log2(a));
    }
  }

  function GetSpanSzclass(cfg: Config, nbytes: nat): int
    requires cfg.Positive()
  {
    if nbytes == 0 || nbytes > ALLOC_MAX then -1
    else ClassOfGroup(cfg.steps, (nbytes - 1) / cfg.pageSize)
  }

  /** From class `s` on: the offset inside the doubling picks the class just above `grp`. */
  lemma OffsetBounds(s: nat, e: nat, grp: nat, p: nat)
    requires s > 0 && e > 0 && p == Pow2(e - 1) && s * p <= grp < 2 * (s * p)
    ensures var o := (grp - s * p) / p; o < s && s * p + o * p <= grp < At(s, e, o)
  {
    hide Pow2;
    OffsetInts(s, grp, p);
  }

  lemma OffsetInts(s: nat, grp: nat, p: nat)
    requires s > 0 && p > 0 && s * p <= grp < 2 * (s * p)
    ensures var o := (grp - s * p) / p; o < s && s * p + o * p <= grp < (s + o + 1) * p
  {
    var d := grp - s * p;
    var o := d / p;
    assert d == p * o + d % p;
    MulCancelStrict(p, s, o);
    assert (s + o + 1) * p == s * p + o * p + p;
  }

  lemma MulCancelStrict(p: nat, s: nat, o: nat)
    requires p > 0 && p * o < p * s
    ensures o < s
  {
    MulDistinct(p, s, o);
  }

  lemma MulDistinct(p: nat, s: nat, o: nat)
    ensures s <= o ==> p * s <= p * o
  {
  }

  /** The class below the one the offset picks ends at or before `grp`. */
  lemma SmallUnits(s: nat)
    requires s > 0
    ensures Units(s, s - 1) == s && Pow2(0) == 1
  {
  }

  lemma BelowOffset(s: nat, e: nat, o: nat)
    requires s > 0 && e > 0 && o < s
    ensures s * e + o >= s && Units(s, s * e + o - 1) == s * Pow2(e - 1) + o * Pow2(e - 1)
  {
    hide Units, Pow2;
    SmallUnits(s);
    var p := Pow2(e - 1);
    UnitsAt(s, e, o);
    if o > 0 {
      UnitsAt(s, e, o - 1);
      assert (s + o) * p == s * p + o * p;
    } else if e > 1 {
      assert s * e - 1 == s * (e - 1) + (s - 1);
      UnitsAt(s, e - 1, s - 1);
      AtWrap(s, e - 1);
    }
  }

  lemma LargeGroup(s: nat, k: nat, e: nat, grp: nat, p: nat)
    requires s > 0 && e > 0 && s == Pow2(k) && p == Pow2(e - 1)
    requires s * p <= grp < 2 * (s * p)
    ensures var c := e * s + (grp - s * p) / p;
      c > 0 && grp < Units(s, c) && Units(s, c - 1) <= grp
  {
    OffsetBounds(s, e, grp, p);
    var o := (grp - s * p) / p;
    UnitsAt(s, e, o);
    BelowOffset(s, e, o);
  }

  /** Class sizes bracket the group number. */
  lemma GroupBracket(s: nat, grp: nat)
    requires IsPow2(s)
    ensures var c := ClassOfGroup(s, grp);
      c >= 0 && grp < Units(s, c) && (c > 0 ==> Units(s, c - 1) <= grp)
  {
    hide Pow2;
    IsPow2Log(s);
    if grp >= s {
      var k, b := Log2(s), Log2(grp);
      Log2Mono(s, grp);
      var e := b - k + 1;
      var p := Pow2(e - 1);
      assert s * p == Pow2(b) by { Pow2Add(k, e - 1); }
      LargeGroup(s, k, e, grp, p);
    }
  }

  /** Sizes in units order classes as their indices do. */
  lemma UnitsOrder(s: nat, c: nat, d: nat)
    requires s > 0
    ensures c <= d <==> Units(s, c) <= Units(s, d)
  {
    if c < d {
      UnitsStrict(s, c, d);
    } else if d < c {
      UnitsStrict(s, d, c);
    }
  }

  lemma SizeOrder(unit: nat, s: nat, c: nat, d: nat)
    requires s > 0 && unit > 0
    ensures c <= d <==> unit * Units(s, c) <= unit * Units(s, d)
  {
    UnitsOrder(s, c, d);
    if c <= d {
      MulMono(Units(s, c), Units(s, d), unit);
    } else {
      MulMono(Units(s, d) + 1, Units(s, c), unit);
    }
  }

  /** The formula brackets every request between two consecutive class sizes. */
  lemma SpanClassBracket(cfg: Config, nbytes: nat)
    requires cfg.Pow2Steps() && 0 < nbytes <= ALLOC_MAX
    ensures var c := GetSpanSzclass(cfg, nbytes);
      && c >= 0 && nbytes <= cfg.pageSize * Units(cfg.steps, c)
      && (c > 0 ==> cfg.pageSize * Units(cfg.steps, c - 1) < nbytes)
  {
    hide ClassOfGroup, Units, IsPow2;
    var grp := (nbytes - 1) / cfg.pageSize;
    GroupBracket(cfg.steps, grp);
    var c := ClassOfGroup(cfg.steps, grp);
    PageBracket(cfg.pageSize, nbytes, grp, if c > 0 then Units(cfg.steps, c - 1) else 0, Units(cfg.steps, c));
  }

  lemma PageBracket(p: nat, n: nat, grp: nat, u: nat, v: nat)
    requires p > 0 && n > 0 && grp == (n - 1) / p && u <= grp < v
    ensures p * u < n <= p * v
  {
    assert n - 1 == p * grp + (n - 1) % p;
    Distribute(p, grp, 1);
    MulMono(grp + 1, v, p);
    MulMono(u, grp, p);
  }

  lemma AllocMaxIsPow2()
    ensures Pow2(62) == ALLOC_MAX
  {
    assert Pow2(10) == 1024;
    Pow2Add(10, 10);
    Pow2Add(20, 10);
    Pow2Add(30, 30);
    Pow2Add(60, 2);
  }

  /** The last class of the span table is exactly the largest request. */
  lemma LargestClass(cfg: Config) returns (m: nat)
    requires cfg.Pow2Steps()
    ensures cfg.pageSize * Units(cfg.steps, m) == ALLOC_MAX
  {
    AllocMaxIsPow2();
    IsPow2Log(cfg.pageSize);
    var k := Log2(cfg.pageSize);
    if k > 62 {
      Pow2Strict(62, k);
    }
    m := Pow2IsClass(cfg.steps, 62 - k);
    Pow2Divides(k, 62);
  }

  /** The formula inverts the generator: it gives the least class that holds the request, and
      that class is in the table. */
  lemma SpanClassIsLeast(cfg: Config, t: seq<nat>, nbytes: nat)
    requires cfg.Pow2Steps() && IsSpanTable(cfg, t) && 0 < nbytes <= ALLOC_MAX
    ensures 0 <= GetSpanSzclass(cfg, nbytes) < |t|
    ensures t[GetSpanSzclass(cfg, nbytes)] >= nbytes
    ensures forall d :: 0 <= d < |t| && t[d] >= nbytes ==> GetSpanSzclass(cfg, nbytes) <= d
  {
    hide GetSpanSzclass, Units, NthSpan, IsPow2;
    var p, s := cfg.pageSize, cfg.steps;
    var c := GetSpanSzclass(cfg, nbytes);
    SpanClassBracket(cfg, nbytes);
    var m := LargestClass(cfg);
    NthSpanIs(cfg, |t|);
    SizeOrder(p, s, |t|, m);
    if c > 0 {
      SizeOrder(p, s, m, c - 1);
    }
    NthSpanIs(cfg, c);
    forall d | 0 <= d < |t| && t[d] >= nbytes ensures c <= d {
      NthSpanIs(cfg, d);
      if c > 0 {
        SizeOrder(p, s, d, c - 1);
      }
    }
  }

  /** A class size is its own class. */
  lemma SpanClassOfSize(cfg: Config, t: seq<nat>, c: nat)
    requires cfg.Pow2Steps() && IsSpanTable(cfg, t) && c < |t|
    ensures t[c] > 0 && GetSpanSzclass(cfg, t[c]) == c
  {
    hide GetSpanSzclass, Units, NthSpan, IsPow2;
    NthSpanIs(cfg, c);
    SpanClassBracket(cfg, t[c]);
    var d := GetSpanSzclass(cfg, t[c]);
    SizeOrder(cfg.pageSize, cfg.steps, c, d);
    if d > 0 {
      SizeOrder(cfg.pageSize, cfg.steps, c, d - 1);
    }
  }

  lemma GapShare(s: nat, c: nat)
    requires IsPow2(s) && c + 1 >= s
    ensures s * Gap(s, c) <= Units(s, c)
  {
    if c >= s {
      TopBit(s, c);
    }
  }

  /** Above `steps` pages, less than one part in `steps` of the request is wasted. */
  lemma SpanWaste(cfg: Config, nbytes: nat)
    requires cfg.Pow2Steps() && cfg.steps * cfg.pageSize < nbytes <= ALLOC_MAX
    ensures GetSpanSzclass(cfg, nbytes) >= 0
    ensures (cfg.pageSize * Units(cfg.steps, GetSpanSzclass(cfg, nbytes)) - nbytes) * cfg.steps < nbytes
  {
    hide GetSpanSzclass, IsPow2;
    var p, s := cfg.pageSize, cfg.steps;
    var c := GetSpanSzclass(cfg, nbytes);
    SpanClassBracket(cfg, nbytes);
    if c < s {
      MulMono(c + 1, s, p);
    }
    UnitsNext(s, c - 1);
    GapShare(s, c - 1);
    WasteBound(p, s, Units(s, c - 1), Gap(s, c - 1), nbytes);
  }

  lemma WasteBound(p: nat, s: nat, u: nat, g: nat, n: nat)
    requires s * g <= u && p * u < n <= p * (u + g) && s > 0
    ensures (p * (u + g) - n) * s < n
  {
    Distribute(p, u, g);
    var waste := p * (u + g) - n;
    MulMono(waste + 1, p * g, s);
    assert (p * g) * s == p * (s * g);
    MulMono(s * g, u, p);
  }

  // ----- step counts that are not a power of two -----

  /** Every request gets a class at least as large as itself. */
  ghost predicate Serves(cfg: Config)
    requires cfg.Positive()
  {
    forall n :: 0 < n <= ALLOC_MAX ==> GetSpanSzclass(cfg, n) >= 0 && NthSpan(cfg, GetSpanSzclass(cfg, n)) >= n
  }

  lemma NearPage(p: nat, s: nat, w: nat)
    requires p > 0 && s > 0 && w < 2 * s
    ensures Max(p, (p * w) / s) / p * p == p
  {
    var x := (p * w) / s;
    assert p * w == s * x + (p * w) % s;
    MulMono(w + 1, 2 * s, p);
    assert p * (2 * s) == s * (2 * p);
    MulCancelStrict(s, 2 * p, x);
    var y := Max(p, x);
    DivUnique(y, p, 1, y - p);
  }

  /** With `steps` strictly between two powers of two, the generator goes on page by page for
      twice as long as the formula believes. */
  lemma {:induction false} UnevenSteps(cfg: Config, i: nat)
    requires cfg.Valid() && !IsPow2(cfg.steps) && i <= 2 * Pow2(Log2(cfg.steps))
    ensures NthSpan(cfg, i) == cfg.pageSize * (i + 1)
  {
    hide Pow2, Log2;
    if i > 0 {
      UnevenSteps(cfg, i - 1);
      var p, s, q := cfg.pageSize, cfg.steps, Pow2(Log2(cfg.steps));
      var w := Pow2(Log2(i));
      Log2Scale(p, i, p * i, p * w);
      assert w < 2 * s;
      NearPage(p, s, w);
      Distribute(p, i, 1);
      NthNext(cfg, i - 1);
    }
  }

  /** The request the formula gets wrong: two pages more than twice the power of two below `steps`. */
  lemma UnevenGroup(s: nat)
    requires s > 0 && !IsPow2(s)
    ensures var q := Pow2(Log2(s)); 2 * q + 2 <= 2 * s && ClassOfGroup(s, 2 * q + 1) == 2 * q
  {
    hide Log2;
    var k, q := Log2(s), Pow2(Log2(s));
    assert q >= 2;
    Log2Unique(2 * q + 1, k + 1);
    assert Pow2(1) == 2;
    DivUnique(1, 2, 0, 1);
  }

  /** The script accepts any positive number of steps per power of two, but the formula meets
      its purpose exactly for powers of two. */
  lemma ServesIffPow2Steps(cfg: Config)
    requires cfg.Valid() && 2 * cfg.steps * cfg.pageSize <= ALLOC_MAX
    ensures Serves(cfg) <==> IsPow2(cfg.steps)
  {
    if IsPow2(cfg.steps) {
      hide GetSpanSzclass, NthSpan, IsPow2;
      forall n | 0 < n <= ALLOC_MAX
        ensures GetSpanSzclass(cfg, n) >= 0 && NthSpan(cfg, GetSpanSzclass(cfg, n)) >= n
      {
        SpanClassBracket(cfg, n);
        NthSpanIs(cfg, GetSpanSzclass(cfg, n));
      }
    } else {
      Misserved(cfg);
    }
  }

  lemma Misserved(cfg: Config)
    requires cfg.Valid() && 2 * cfg.steps * cfg.pageSize <= ALLOC_MAX && !IsPow2(cfg.steps)
    ensures !Serves(cfg)
  {
    hide Pow2, Log2, IsPow2, ClassOfGroup;
    var p, q := cfg.pageSize, Pow2(Log2(cfg.steps));
    var n := p * (2 * q + 2);
    UnevenGroup(cfg.steps);
    UnevenSteps(cfg, 2 * q);
    MulMono(2 * q + 2, 2 * cfg.steps, p);
    Distribute(p, 2 * q + 1, 1);
    DivUnique(n - 1, p, 2 * q + 1, p - 1);
    assert GetSpanSzclass(cfg, n) == 2 * q;
  }

  // ----- slab requests -----

  ghost predicate LeastAtLeast(t: seq<nat>, c: nat, n: nat) {
    c < |t| && t[c] >= n && (c > 0 ==> t[c - 1] < n)
  }

  ghost predicate IsLookup(cfg: Config, slabs: seq<nat>, lookup: seq<nat>)
    requires cfg.Positive()
  {
    |lookup| == cfg.slabMax / cfg.minAlign && Tabulated(cfg, slabs, lookup)
  }

  /** Entry `k` is for requests of `k + 1` units of alignment. */
  ghost predicate Tabulated(cfg: Config, slabs: seq<nat>, lookup: seq<nat>) {
    forall k :: 0 <= k < |lookup| ==> LeastAtLeast(slabs, lookup[k], cfg.minAlign * (k + 1))
  }

  /** The largest slab size is exactly the slab limit, which is what stops the inner loop below. */
  lemma LargestSlab(cfg: Config, slabs: seq<nat>) returns (last: nat)
    requires cfg.Pow2Steps() && IsSlabTable(cfg, slabs) && cfg.minAlign <= cfg.slabMax
    ensures last < |slabs| && slabs[last] == cfg.slabMax
  {
    hide Units, NthSlab, Log2, Pow2;
    IsPow2Log(cfg.minAlign);
    IsPow2Log(cfg.slabMax);
    var a, m := Log2(cfg.minAlign), Log2(cfg.slabMax);
    Log2Mono(cfg.minAlign, cfg.slabMax);
    last := Pow2IsClass(cfg.steps, m - a);
    Pow2Divides(a, m);
    NthSlabIs(cfg, last);
    NthSlabIs(cfg, |slabs|);
    SizeOrder(cfg.minAlign, cfg.steps, |slabs|, last);
  }

  lemma StartsTabulated(cfg: Config, slabs: seq<nat>)
    ensures Tabulated(cfg, slabs, [])
  {
  }

  lemma TabulatedNext(cfg: Config, slabs: seq<nat>, lookup: seq<nat>, c: nat)
    requires Tabulated(cfg, slabs, lookup) && LeastAtLeast(slabs, c, cfg.minAlign * (|lookup| + 1))
    ensures Tabulated(cfg, slabs, lookup + [c])
  {
    hide LeastAtLeast;
  }

  /** The script's loop that tabulates the class of every multiple of the minimum alignment. */
  method BuildLookup(cfg: Config, slabs: seq<nat>) returns (lookup: seq<nat>)
    requires cfg.Pow2Steps() && IsSlabTable(cfg, slabs)
    ensures IsLookup(cfg, slabs, lookup)
  {
    hide IsPow2, NthSlab, IsSlabTable, Tabulated;
    StartsTabulated(cfg, slabs);
    lookup := [];
    var curr := 0;
    var req := cfg.minAlign;
    ghost var last := 0;
    if req <= cfg.slabMax {
      last := LargestSlab(cfg, slabs);
    }
    while req <= cfg.slabMax
      invariant req == cfg.minAlign * (|lookup| + 1)
      invariant |lookup| > 0 ==> req - cfg.minAlign <= cfg.slabMax
      invariant curr <= last
      invariant cfg.minAlign <= cfg.slabMax ==> last < |slabs| && slabs[last] == cfg.slabMax
      invariant curr == 0 || (cfg.minAlign <= cfg.slabMax && slabs[curr - 1] < req)
      invariant Tabulated(cfg, slabs, lookup)
      decreases cfg.slabMax + 1 - req
    {
      assert cfg.minAlign <= cfg.slabMax;
      while slabs[curr] < req
        invariant curr <= last
        invariant curr == 0 || slabs[curr - 1] < req
        decreases last - curr
      {
        curr := curr + 1;
      }
      Distribute(cfg.minAlign, |lookup| + 1, 1);
      TabulatedNext(cfg, slabs, lookup, curr);
      lookup := lookup + [curr];
      req := req + cfg.minAlign;
    }
    Distribute(cfg.minAlign, |lookup|, 1);
    DivUnique(cfg.slabMax, cfg.minAlign, |lookup|, cfg.slabMax - cfg.minAlign * |lookup|);
  }

  datatype Request = Request(szclass: int, isSlab: int)

  /** The class of a request: from the table for slab sizes, by formula above them. */
  function GetSzclass(cfg: Config, lookup: seq<nat>, nbytes: nat): Request
    requires cfg.Valid() && cfg.minAlign <= cfg.slabMax && |lookup| == cfg.slabMax / cfg.minAlign
  {
    if nbytes == 0 || nbytes > ALLOC_MAX then Request(0, -1)
    else if nbytes <= cfg.slabMax then
      var idx := (nbytes + cfg.minAlign - 1) / Pow2(Log2(cfg.minAlign));
      IsPow2Log(cfg.minAlign);
      IndexInRange(nbytes, cfg.minAlign, cfg.slabMax);
      Request(lookup[if idx == 0 then 0 else idx - 1], 1)
    else Request(GetSpanSzclass(cfg, nbytes), 0)
  }

  /** The index of the table entry that rounds `n` up to a multiple of `a`. */
  lemma RoundIndex(n: nat, a: nat, q: nat)
    requires a > 0 && 0 < n <= a * q
    ensures var idx := (n + a - 1) / a; 1 <= idx <= q && a * (idx - 1) < n <= a * idx
  {
    var idx := (n + a - 1) / a;
    assert n + a - 1 == a * idx + (n + a - 1) % a;
    assert a * idx < a * (q + 1) by { Distribute(a, q, 1); }
    MulCancelStrict(a, q + 1, idx);
    assert idx == 0 ==> a * idx == 0;
    Distribute(a, idx - 1, 1);
  }

  lemma IndexInRange(n: nat, a: nat, max: nat)
    requires IsPow2(a) && IsPow2(max) && a <= max && 0 < n <= max
    ensures var idx := (n + a - 1) / a; 1 <= idx <= max / a && a * (idx - 1) < n <= a * idx
  {
    hide IsPow2;
    SmallerDivides(a, max);
    RoundIndex(n, a, max / a);
  }

  /** A request that rounds up to entry `k` of the lookup gets its least class. */
  lemma LookupIsLeast(cfg: Config, slabs: seq<nat>, lookup: seq<nat>, nbytes: nat, k: nat)
    requires cfg.Pow2Steps() && IsSlabTable(cfg, slabs) && IsLookup(cfg, slabs, lookup) && k < |lookup|
    requires cfg.minAlign * k < nbytes <= cfg.minAlign * (k + 1)
    ensures LeastAtLeast(slabs, lookup[k], nbytes)
  {
    hide IsPow2, NthSlab, Units;
    var c := lookup[k];
    assert LeastAtLeast(slabs, c, cfg.minAlign * (k + 1));
    if c > 0 {
      NthSlabIs(cfg, c - 1);
      BelowMultiple(cfg.minAlign, k + 1, Units(cfg.steps, c - 1), nbytes);
    }
  }

  lemma BelowMultiple(a: nat, idx: nat, u: nat, n: nat)
    requires a > 0 && idx > 0 && a * u < a * idx && a * (idx - 1) < n
    ensures a * u < n
  {
    MulCancelStrict(a, idx, u);
    MulMono(u, idx - 1, a);
  }

  lemma SlabRequest(cfg: Config, lookup: seq<nat>, nbytes: nat, k: nat)
    requires cfg.Valid() && cfg.minAlign <= cfg.slabMax && |lookup| == cfg.slabMax / cfg.minAlign
    requires 0 < nbytes <= cfg.slabMax && nbytes <= ALLOC_MAX && k < |lookup|
    requires cfg.minAlign * k < nbytes <= cfg.minAlign * (k + 1)
    ensures GetSzclass(cfg, lookup, nbytes) == Request(lookup[k], 1)
  {
    hide IsPow2;
    IsPow2Log(cfg.minAlign);
    var a := cfg.minAlign;
    assert a * (k + 1) == a * k + a by { Distribute(a, k, 1); }
    DivUnique(nbytes + a - 1, a, k + 1, nbytes - 1 - a * k);
  }

  /** The lookup gives the least slab class that holds the request. */
  lemma SlabClassIsLeast(cfg: Config, slabs: seq<nat>, lookup: seq<nat>, nbytes: nat)
    requires cfg.Pow2Steps() && cfg.minAlign <= cfg.slabMax
    requires IsSlabTable(cfg, slabs) && IsLookup(cfg, slabs, lookup) && 0 < nbytes <= cfg.slabMax && nbytes <= ALLOC_MAX
    ensures GetSzclass(cfg, lookup, nbytes).isSlab == 1
    ensures GetSzclass(cfg, lookup, nbytes).szclass >= 0
    ensures LeastAtLeast(slabs, GetSzclass(cfg, lookup, nbytes).szclass, nbytes)
  {
    hide GetSzclass, LeastAtLeast, IsSlabTable, IsPow2;
    IndexInRange(nbytes, cfg.minAlign, cfg.slabMax);
    var k := (nbytes + cfg.minAlign - 1) / cfg.minAlign - 1;
    LookupIsLeast(cfg, slabs, lookup, nbytes, k);
    SlabRequest(cfg, lookup, nbytes, k);
  }
}
