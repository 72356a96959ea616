/** The canvas split: shares resolved, raised to a floor by a levy, and carved
    into bands. Lengths are reals; rounding is not modelled. */
module Canvas {
  const EPSILON: real := 1.0 / 8388608.0
  const CANVAS_DIVIDER_PX: real := 4.0
  const COLLAPSED_PANE_WIDTH_PX: real := 8.0
  const MIN_PANE_WIDTH_PX: real := 240.0

  datatype PaneWidth = Auto | Manual(share: real) | Collapsed(restore: real)

  function Max(a: real, b: real): real { if a < b then b else a }

  function Min(a: real, b: real): real { if b < a then b else a }

  function Clamp(x: real, low: real, high: real): real { Max(low, Min(x, high)) }

  /** What the dividers around a pane take out of its share. */
  function DividerCostPx(index: nat, count: nat): real {
    var half := CANVAS_DIVIDER_PX / 2.0;
    (if index > 0 then half else 0.0) + if index + 1 < count then half else 0.0
  }

  function CollapsedShare(index: nat, count: nat, total: real): real {
    if total > 0.0 then (COLLAPSED_PANE_WIDTH_PX + DividerCostPx(index, count)) / total else 0.0
  }

  function SumTo(s: seq<real>, n: nat): real
    requires n <= |s|
  {
    if n == 0 then 0.0 else SumTo(s, n - 1) + s[n - 1]
  }

  function Sum(s: seq<real>): real {
    SumTo(s, |s|)
  }

  // ---------------------------------------------------------- what panes claim

  /** What the panes that named a size claim between them. */
  function ClaimedTo(widths: seq<PaneWidth>, total: real, n: nat): real
    requires n <= |widths|
  {
    if n == 0 then 0.0
    else ClaimedTo(widths, total, n - 1) + match widths[n - 1] {
      case Collapsed(_) => CollapsedShare(n - 1, |widths|, total)
      case Manual(share) => Clamp(share, 0.0, 1.0)
      case Auto => 0.0
    }
  }

  function AutoCountTo(widths: seq<PaneWidth>, n: nat): nat
    requires n <= |widths|
  {
    if n == 0 then 0 else AutoCountTo(widths, n - 1) + if widths[n - 1].Auto? then 1 else 0
  }

  function AutoShare(widths: seq<PaneWidth>, total: real): real {
    var count := AutoCountTo(widths, |widths|);
    if count == 0 then 0.0 else Max((1.0 - ClaimedTo(widths, total, |widths|)) / count as real, 0.0)
  }

  function Claim(widths: seq<PaneWidth>, total: real, index: nat): real
    requires index < |widths|
  {
    match widths[index]
    case Collapsed(_) => CollapsedShare(index, |widths|, total)
    case Manual(share) => Clamp(share, 0.0, 1.0)
    case Auto => AutoShare(widths, total)
  }

  function Claims(widths: seq<PaneWidth>, total: real): seq<real> {
    seq(|widths|, i requires 0 <= i < |widths| => Claim(widths, total, i))
  }

  ghost predicate NonNegative(s: seq<real>) {
    forall i :: 0 <= i < |s| ==> s[i] >= 0.0
  }

  lemma DivisionKeepsSign(a: real, b: real)
    requires a >= 0.0 && b > 0.0
    ensures a / b >= 0.0
  {
  }

  lemma ClaimsAreNonNegative(widths: seq<PaneWidth>, total: real)
    ensures NonNegative(Claims(widths, total))
  {
    hide AutoShare;
    var claims := Claims(widths, total);
    forall i: nat | i < |claims|
      ensures claims[i] >= 0.0
    {
      if total > 0.0 {
        DivisionKeepsSign(COLLAPSED_PANE_WIDTH_PX + DividerCostPx(i, |widths|), total);
      }
      AutoShareIsNonNegative(widths, total);
    }
  }

  lemma AutoShareIsNonNegative(widths: seq<PaneWidth>, total: real)
    ensures AutoShare(widths, total) >= 0.0
  {
  }

  // -------------------------------------------------------------- normalising

  function Normalised(s: seq<real>): (r: seq<real>)
    ensures |r| == |s|
  {
    var sum := Sum(s);
    if sum > EPSILON then seq(|s|, i requires 0 <= i < |s| => s[i] / sum)
    else seq(|s|, i requires 0 <= i < |s| => 1.0 / |s| as real)
  }

  lemma {:induction false} ScaledSum(s: seq<real>, t: seq<real>, d: real, n: nat)
    requires d > 0.0 && |s| == |t| && n <= |s|
    requires forall i :: 0 <= i < |s| ==> t[i] == s[i] / d
    ensures SumTo(t, n) == SumTo(s, n) / d
  {
    if n > 0 {
      ScaledSum(s, t, d, n - 1);
    }
  }

  lemma {:induction false} EvenSum(t: seq<real>, each: real, n: nat)
    requires n <= |t| && forall i :: 0 <= i < |t| ==> t[i] == each
    ensures SumTo(t, n) == each * n as real
  {
    if n > 0 {
      EvenSum(t, each, n - 1);
    }
  }

  lemma Cancels(x: real)
    requires x != 0.0
    ensures x / x == 1.0 && 1.0 / x * x == 1.0
  {
  }

  /** The normalised shares spend the row exactly once. */
  lemma NormalisedSpendsOnce(s: seq<real>)
    requires NonNegative(s) && |s| > 0
    ensures NonNegative(Normalised(s)) && Sum(Normalised(s)) == 1.0
  {
    hide SumTo;
    var sum, t := Sum(s), Normalised(s);
    if sum > EPSILON {
      ScaledSum(s, t, sum, |s|);
      Cancels(sum);
      forall i | 0 <= i < |t|
        ensures t[i] >= 0.0
      {
        DivisionKeepsSign(s[i], sum);
      }
    } else {
      EvenSum(t, 1.0 / |s| as real, |s|);
      Cancels(|s| as real);
    }
  }

  // -------------------------------------------------------------- who gets what

  /** What a pane that named a size asks of the row: a collapsed one its eight pixels
      and the two of each divider beside it, a dragged one its share kept within the
      row, an automatic one nothing. */
  function Named(width: PaneWidth, index: nat, count: nat, total: real): real {
    match width
    case Collapsed(_) =>
      if total > 0.0 then (8.0 + (if index == 0 then 0.0 else 2.0) + (if index + 1 == count then 0.0 else 2.0)) / total
      else 0.0
    case Manual(share) => if share < 0.0 then 0.0 else if share > 1.0 then 1.0 else share
    case Auto => 0.0
  }

  function NamedTo(widths: seq<PaneWidth>, total: real, n: nat): real
    requires n <= |widths|
  {
    if n == 0 then 0.0 else NamedTo(widths, total, n - 1) + Named(widths[n - 1], n - 1, |widths|, total)
  }

  ghost function AutosTo(widths: seq<PaneWidth>, n: nat): set<nat>
    requires n <= |widths|
  {
    set i: nat | i < n && widths[i].Auto?
  }

  lemma ClaimIsNamed(widths: seq<PaneWidth>, total: real, i: nat)
    requires i < |widths|
    ensures Claim(widths, total, i)
         == if widths[i].Auto? then AutoShare(widths, total) else Named(widths[i], i, |widths|, total)
  {
    hide AutoShare;
  }

  lemma {:induction false} ClaimedIsNamed(widths: seq<PaneWidth>, total: real, n: nat)
    requires n <= |widths|
    ensures ClaimedTo(widths, total, n) == NamedTo(widths, total, n) >= 0.0
  {
    if n > 0 {
      ClaimedIsNamed(widths, total, n - 1);
      NamedIsNotNegative(widths[n - 1], n - 1, |widths|, total);
      assert DividerCostPx(n - 1, |widths|) == (if n - 1 == 0 then 0.0 else 2.0) + (if n == |widths| then 0.0 else 2.0);
    }
  }

  lemma NamedIsNotNegative(width: PaneWidth, index: nat, count: nat, total: real)
    ensures Named(width, index, count, total) >= 0.0
  {
    if total > 0.0 {
      DivisionKeepsSign(8.0 + (if index == 0 then 0.0 else 2.0) + (if index + 1 == count then 0.0 else 2.0), total);
    }
  }

  lemma OneMoreAuto(widths: seq<PaneWidth>, n: nat)
    requires 0 < n <= |widths|
    ensures n - 1 !in AutosTo(widths, n - 1)
    ensures AutosTo(widths, n) == if widths[n - 1].Auto? then AutosTo(widths, n - 1) + {n - 1} else AutosTo(widths, n - 1)
  {
  }

  lemma {:induction false} AutosCounted(widths: seq<PaneWidth>, n: nat)
    requires n <= |widths|
    ensures AutoCountTo(widths, n) == |AutosTo(widths, n)|
  {
    if n == 0 {
      assert AutosTo(widths, n) == {};
    } else {
      AutosCounted(widths, n - 1);
      OneMoreAuto(widths, n);
      hide AutosTo;
    }
  }

  lemma {:induction false} ClaimsAdd(widths: seq<PaneWidth>, total: real, n: nat)
    requires n <= |widths| == |Claims(widths, total)|
    ensures SumTo(Claims(widths, total), n) == NamedTo(widths, total, n) + AutoShare(widths, total) * AutoCountTo(widths, n) as real
  {
    hide AutoShare, Claim, Claims, Named;
    OneMoreShare(AutoShare(widths, total), 0);
    if n > 0 {
      ClaimsAdd(widths, total, n - 1);
      ClaimAt(widths, total, n - 1);
      OneMoreShare(AutoShare(widths, total), AutoCountTo(widths, n - 1));
    }
  }

  lemma ClaimAt(widths: seq<PaneWidth>, total: real, i: nat)
    requires i < |widths|
    ensures |Claims(widths, total)| == |widths|
    ensures Claims(widths, total)[i]
         == if widths[i].Auto? then AutoShare(widths, total) else Named(widths[i], i, |widths|, total)
    ensures widths[i].Auto? ==> Named(widths[i], i, |widths|, total) == 0.0
  {
    ClaimIsNamed(widths, total, i);
    hide AutoShare, Claim;
  }

  lemma OneMoreShare(x: real, k: nat)
    ensures x * (k + 1) as real == x * k as real + x && x * 0 as real == 0.0
  {
  }

  lemma ShareOfTheRest(left: real, count: nat)
    requires count > 0
    ensures left / count as real * count as real == left
    ensures left >= 0.0 ==> left / count as real >= 0.0
    ensures left <= 0.0 ==> left / count as real <= 0.0
  {
  }

  /** Who gets what of the row before the floors are levied. While the panes that named
      a size leave something and there are automatic ones, each named pane gets exactly
      what it named and the automatic ones the rest in equal parts; when they named more
      than the row, or nobody is automatic, what they named is scaled to it; and when
      nobody asks for anything all get the same. */
  lemma {:induction false} WhoGetsWhat(widths: seq<PaneWidth>, total: real, i: nat)
    requires i < |widths|
    ensures var (named, autos, share) := (NamedTo(widths, total, |widths|), |AutosTo(widths, |widths|)|, Normalised(Claims(widths, total))[i]);
      var own := Named(widths[i], i, |widths|, total);
      if autos > 0 && named <= 1.0 then share == if widths[i].Auto? then (1.0 - named) / autos as real else own
      else if named > EPSILON then share == own / named
      else share == 1.0 / |widths| as real
  {
    var named := NamedTo(widths, total, |widths|);
    ClaimsSum(widths, total);
    ClaimIsNamed(widths, total, i);
    NamedOfAuto(widths[i], i, |widths|, total);
    var claims := Claims(widths, total);
    hide Sum, NamedTo, Claim, Named, AutoShare, Claims, AutosTo;
    var r := Normalised(claims)[i];
    assert claims[i] == Claim(widths, total, i);
    assert r == if Sum(claims) > EPSILON then claims[i] / Sum(claims) else 1.0 / |widths| as real;
  }

  /** What all panes ask for together, and what is left for an automatic one. */
  lemma {:induction false} ClaimsSum(widths: seq<PaneWidth>, total: real)
    ensures var (named, autos) := (NamedTo(widths, total, |widths|), |AutosTo(widths, |widths|)|);
      if autos > 0 && named <= 1.0 then
        Sum(Claims(widths, total)) == 1.0 && AutoShare(widths, total) == (1.0 - named) / autos as real
      else Sum(Claims(widths, total)) == named && AutoShare(widths, total) == 0.0
  {
    hide SumTo, NamedTo, Claim, ClaimedTo, Named;
    var (named, count) := (NamedTo(widths, total, |widths|), AutoCountTo(widths, |widths|));
    AutosCounted(widths, |widths|);
    ClaimedIsNamed(widths, total, |widths|);
    ClaimsAdd(widths, total, |widths|);
    OneMoreShare(AutoShare(widths, total), 0);
    if count > 0 {
      ShareOfTheRest(1.0 - named, count);
    }
  }

  lemma NamedOfAuto(width: PaneWidth, index: nat, count: nat, total: real)
    ensures width.Auto? ==> Named(width, index, count, total) == 0.0
  {
  }

  // ------------------------------------------------------------------ the levy

  predicate Open(width: PaneWidth) {
    !width.Collapsed?
  }

  function CommittedTo(s: seq<real>, widths: seq<PaneWidth>, n: nat): real
    requires |s| == |widths| && n <= |s|
  {
    if n == 0 then 0.0 else CommittedTo(s, widths, n - 1) + if Open(widths[n - 1]) then 0.0 else s[n - 1]
  }

  function OpenCountTo(widths: seq<PaneWidth>, n: nat): nat
    requires n <= |widths|
  {
    if n == 0 then 0 else OpenCountTo(widths, n - 1) + if Open(widths[n - 1]) then 1 else 0
  }

  function Short(share: real, width: PaneWidth, floor: real): real {
    if Open(width) && share < floor then floor - share else 0.0
  }

  function Above(share: real, width: PaneWidth, floor: real): real {
    if Open(width) && share >= floor then share - floor else 0.0
  }

  function DeficitTo(s: seq<real>, widths: seq<PaneWidth>, floor: real, n: nat): real
    requires |s| == |widths| && n <= |s|
  {
    if n == 0 then 0.0
    else DeficitTo(s, widths, floor, n - 1) + Short(s[n - 1], widths[n - 1], floor)
  }

  function SurplusTo(s: seq<real>, widths: seq<PaneWidth>, floor: real, n: nat): real
    requires |s| == |widths| && n <= |s|
  {
    if n == 0 then 0.0
    else SurplusTo(s, widths, floor, n - 1) + Above(s[n - 1], widths[n - 1], floor)
  }

  function FloorCost(floor: real, openCount: nat): real {
    floor * openCount as real
  }

  /** The row can give every open pane its floor beside the collapsed ones. */
  predicate Affordable(s: seq<real>, widths: seq<PaneWidth>, floor: real)
    requires |s| == |widths|
  {
    CommittedTo(s, widths, |s|) + FloorCost(floor, OpenCountTo(widths, |s|)) <= 1.0
  }

  function LevyOne(share: real, width: PaneWidth, floor: real, levy: real): real {
    if !Open(width) then share
    else if share < floor then floor
    else share - (share - floor) * levy
  }

  function LevyRate(s: seq<real>, widths: seq<PaneWidth>, floor: real): real
    requires |s| == |widths| && SurplusTo(s, widths, floor, |s|) > 0.0
  {
    Min(DeficitTo(s, widths, floor, |s|) / SurplusTo(s, widths, floor, |s|), 1.0)
  }

  function Levied(s: seq<real>, widths: seq<PaneWidth>, total: real): (r: seq<real>)
    requires |s| == |widths|
    ensures |r| == |s|
  {
    if total <= 0.0 || |s| < 2 then s
    else
      var floor := MIN_PANE_WIDTH_PX / total;
      if OpenCountTo(widths, |s|) == 0 || !Affordable(s, widths, floor) then s
      else if DeficitTo(s, widths, floor, |s|) <= EPSILON || SurplusTo(s, widths, floor, |s|) <= EPSILON then s
      else
        var levy := LevyRate(s, widths, floor);
        seq(|s|, i requires 0 <= i < |s| => LevyOne(s[i], widths[i], floor, levy))
  }

  /** A row is its collapsed shares, its open floors, and what stands above
      them less what falls short. */
  lemma {:induction false} Balance(s: seq<real>, widths: seq<PaneWidth>, floor: real, n: nat)
    requires |s| == |widths| && n <= |s|
    ensures SumTo(s, n) == CommittedTo(s, widths, n) + FloorCost(floor, OpenCountTo(widths, n))
                         + SurplusTo(s, widths, floor, n) - DeficitTo(s, widths, floor, n)
  {
    hide Short, Above, FloorCost;
    OneMore(floor, 0);
    if n > 0 {
      Balance(s, widths, floor, n - 1);
      OneMore(floor, OpenCountTo(widths, n - 1));
      BalanceOne(s[n - 1], widths[n - 1], floor);
    }
  }

  lemma BalanceOne(share: real, width: PaneWidth, floor: real)
    ensures Open(width) ==> share == floor + Above(share, width, floor) - Short(share, width, floor)
    ensures !Open(width) ==> Above(share, width, floor) == Short(share, width, floor) == 0.0
  {
  }

  lemma OneMore(x: real, k: nat)
    ensures FloorCost(x, 0) == 0.0 && FloorCost(x, k + 1) == FloorCost(x, k) + x
  {
  }

  lemma {:induction false} DeficitIsShortfall(s: seq<real>, widths: seq<PaneWidth>, floor: real, n: nat, i: nat)
    requires |s| == |widths| && n <= |s|
    ensures DeficitTo(s, widths, floor, n) >= 0.0
    ensures i < n && Open(widths[i]) ==> floor - s[i] <= DeficitTo(s, widths, floor, n)
  {
    if n > 0 {
      DeficitIsShortfall(s, widths, floor, n - 1, i);
    }
  }

  function Pays(share: real, width: PaneWidth, floor: real, levy: real): real {
    Above(share, width, floor) * levy
  }

  function PaidTo(s: seq<real>, widths: seq<PaneWidth>, floor: real, levy: real, n: nat): real
    requires |s| == |widths| && n <= |s|
  {
    if n == 0 then 0.0 else PaidTo(s, widths, floor, levy, n - 1) + Pays(s[n - 1], widths[n - 1], floor, levy)
  }

  /** Together the open panes pay the levy's share of everything above the floor. */
  lemma {:induction false} PaidIsTheLevy(s: seq<real>, widths: seq<PaneWidth>, floor: real, levy: real, n: nat)
    requires |s| == |widths| && n <= |s|
    ensures PaidTo(s, widths, floor, levy, n) == SurplusTo(s, widths, floor, n) * levy
  {
    if n > 0 {
      hide Above;
      PaidIsTheLevy(s, widths, floor, levy, n - 1);
      Spread(SurplusTo(s, widths, floor, n - 1), Above(s[n - 1], widths[n - 1], floor), levy);
    }
  }

  lemma {:induction false} LevySum(s: seq<real>, widths: seq<PaneWidth>, floor: real, levy: real, t: seq<real>, n: nat)
    requires |s| == |widths| == |t| && n <= |s|
    requires forall i :: 0 <= i < |s| ==> t[i] == LevyOne(s[i], widths[i], floor, levy)
    ensures SumTo(t, n) == SumTo(s, n) + DeficitTo(s, widths, floor, n) - PaidTo(s, widths, floor, levy, n)
  {
    if n > 0 {
      hide LevyOne, Short, Above, Pays;
      LevySum(s, widths, floor, levy, t, n - 1);
      LevyOneMoves(s[n - 1], widths[n - 1], floor, levy);
    }
  }

  lemma LevyOneMoves(share: real, width: PaneWidth, floor: real, levy: real)
    ensures LevyOne(share, width, floor, levy) == share + Short(share, width, floor) - Pays(share, width, floor, levy)
  {
  }

  lemma Spread(a: real, b: real, c: real)
    ensures (a + b) * c == a * c + b * c
  {
  }

  lemma LevyOneStaysUp(share: real, width: PaneWidth, floor: real, levy: real)
    requires 0.0 <= levy <= 1.0 && floor > 0.0
    ensures Open(width) ==> LevyOne(share, width, floor, levy) >= floor
  {
    if share >= floor {
      assert (share - floor) * levy <= share - floor;
    }
  }

  lemma RateIsExact(deficit: real, surplus: real)
    requires 0.0 <= deficit <= surplus && surplus > 0.0
    ensures 0.0 <= deficit / surplus <= 1.0 && surplus * (deficit / surplus) == deficit
  {
  }

  /** The shortfall of an affordable row never exceeds what stands above the floor. */
  lemma {:induction false} AffordableMeansPayable(s: seq<real>, widths: seq<PaneWidth>, floor: real)
    requires |s| == |widths| && Sum(s) == 1.0 && Affordable(s, widths, floor)
    ensures DeficitTo(s, widths, floor, |s|) <= SurplusTo(s, widths, floor, |s|)
  {
    Balance(s, widths, floor, |s|);
  }

  /** The levy spends the row once, leaves collapsed panes alone, and in a row
      that can afford it puts every open pane at its floor. */
  lemma LevyIsFair(s: seq<real>, widths: seq<PaneWidth>, total: real)
    requires |s| == |widths| && NonNegative(s) && Sum(s) == 1.0
    ensures var t := Levied(s, widths, total);
      && NonNegative(t) && Sum(t) == 1.0
      && (forall i :: 0 <= i < |s| && !Open(widths[i]) ==> t[i] == s[i])
    ensures total > 0.0 && |s| >= 2 && Affordable(s, widths, MIN_PANE_WIDTH_PX / total) ==>
      forall i :: 0 <= i < |s| && Open(widths[i]) ==>
        Levied(s, widths, total)[i] >= MIN_PANE_WIDTH_PX / total - EPSILON
  {
    hide SumTo, DeficitTo, SurplusTo, OpenCountTo, CommittedTo, LevyOne, LevyRate;
    if total > 0.0 && |s| >= 2 {
      var floor := MIN_PANE_WIDTH_PX / total;
      var deficit, surplus := DeficitTo(s, widths, floor, |s|), SurplusTo(s, widths, floor, |s|);
      NoOpenPane(widths, |s|);
      forall i: nat | i < |s| && Open(widths[i])
        ensures floor - s[i] <= deficit
      {
        DeficitIsShortfall(s, widths, floor, |s|, i);
      }
      if Affordable(s, widths, floor) {
        AffordableMeansPayable(s, widths, floor);
        if deficit > EPSILON && surplus > EPSILON {
          LevyWorks(s, widths, floor);
        }
      }
    }
  }

  /** And where it moves anything, the row can afford its floors, every open pane under
      the floor is put exactly there, and all above it give in proportion to how far
      above they stand, none sinking below. */
  lemma LevyTakesInProportion(s: seq<real>, widths: seq<PaneWidth>, total: real, i: nat, j: nat)
    requires |s| == |widths| && NonNegative(s) && Sum(s) == 1.0 && Levied(s, widths, total) != s
    requires i < |s| && j < |s| && Open(widths[i]) && Open(widths[j])
    ensures total > 0.0 && |s| >= 2 && Affordable(s, widths, MIN_PANE_WIDTH_PX / total)
    ensures var (t, floor) := (Levied(s, widths, total), MIN_PANE_WIDTH_PX / total);
      && (s[i] < floor ==> t[i] == floor)
      && (s[i] >= floor ==> floor <= t[i] <= s[i])
      && (s[i] >= floor && s[j] >= floor ==> (t[i] - floor) * (s[j] - floor) == (t[j] - floor) * (s[i] - floor))
  {
    hide SumTo, DeficitTo, SurplusTo, OpenCountTo, CommittedTo;
    var floor := MIN_PANE_WIDTH_PX / total;
    var levy := LevyRate(s, widths, floor);
    DeficitIsShortfall(s, widths, floor, |s|, i);
    assert 0.0 <= levy <= 1.0;
    hide Affordable, LevyRate, Levied;
    LevyOneStaysUp(s[i], widths[i], floor, levy);
    Gives(s[i] - floor, levy);
    Gives(s[j] - floor, levy);
    Proportion(s[i] - floor, s[j] - floor, 1.0 - levy);
  }

  lemma Gives(above: real, levy: real)
    requires 0.0 <= levy
    ensures above - above * levy == above * (1.0 - levy) && (above >= 0.0 ==> above * levy >= 0.0)
  {
  }

  lemma Proportion(a: real, b: real, c: real)
    ensures (a * c) * b == (b * c) * a
  {
  }

  lemma {:induction false} NoOpenPane(widths: seq<PaneWidth>, n: nat)
    requires n <= |widths|
    ensures OpenCountTo(widths, n) == 0 ==> forall i :: 0 <= i < n ==> !Open(widths[i])
  {
    if n > 0 {
      NoOpenPane(widths, n - 1);
    }
  }

  lemma {:induction false} LevyWorks(s: seq<real>, widths: seq<PaneWidth>, floor: real)
    requires |s| == |widths| && NonNegative(s) && Sum(s) == 1.0 && floor > 0.0
    requires 0.0 < DeficitTo(s, widths, floor, |s|) <= SurplusTo(s, widths, floor, |s|)
    ensures var t := seq(|s|, i requires 0 <= i < |s| => LevyOne(s[i], widths[i], floor, LevyRate(s, widths, floor)));
      && NonNegative(t) && Sum(t) == 1.0
      && (forall i :: 0 <= i < |s| && !Open(widths[i]) ==> t[i] == s[i])
      && (forall i :: 0 <= i < |s| && Open(widths[i]) ==> t[i] >= floor)
  {
    hide SumTo, DeficitTo, SurplusTo;
    var levy := LevyRate(s, widths, floor);
    RateIsExact(DeficitTo(s, widths, floor, |s|), SurplusTo(s, widths, floor, |s|));
    var t := seq(|s|, i requires 0 <= i < |s| => LevyOne(s[i], widths[i], floor, levy));
    forall i | 0 <= i < |s|
      ensures Open(widths[i]) ==> t[i] >= floor
    {
      LevyOneStaysUp(s[i], widths[i], floor, levy);
    }
    LevySum(s, widths, floor, levy, t, |s|);
    PaidIsTheLevy(s, widths, floor, levy, |s|);
  }

  /** In a row that cannot afford its floors some open pane is under its own. */
  lemma {:induction false} UnaffordableLeavesOneShort(s: seq<real>, widths: seq<PaneWidth>, floor: real)
    requires |s| == |widths| && Sum(s) == 1.0 && !Affordable(s, widths, floor)
    ensures exists i :: 0 <= i < |s| && Open(widths[i]) && s[i] < floor
  {
    hide SumTo, DeficitTo, SurplusTo, OpenCountTo, CommittedTo;
    Balance(s, widths, floor, |s|);
    NoShortfall(s, widths, floor, |s|);
  }

  lemma {:induction false} NoShortfall(s: seq<real>, widths: seq<PaneWidth>, floor: real, n: nat)
    requires |s| == |widths| && n <= |s|
    ensures SurplusTo(s, widths, floor, n) >= 0.0
    ensures (forall i :: 0 <= i < n && Open(widths[i]) ==> s[i] >= floor) ==> DeficitTo(s, widths, floor, n) == 0.0
  {
    if n > 0 {
      NoShortfall(s, widths, floor, n - 1);
    }
  }

  // ------------------------------------------------------- the code, step by step

  function Resolved(widths: seq<PaneWidth>, total: real): (s: seq<real>)
    ensures |s| == |widths|
  {
    Levied(Normalised(Claims(widths, total)), widths, total)
  }

  method FirstPass(widths: seq<PaneWidth>, total: real) returns (claimed: real, autoCount: nat)
    ensures claimed == ClaimedTo(widths, total, |widths|) && autoCount == AutoCountTo(widths, |widths|)
  {
    claimed, autoCount := 0.0, 0;
    for index := 0 to |widths|
      invariant claimed == ClaimedTo(widths, total, index) && autoCount == AutoCountTo(widths, index)
    {
      match widths[index] {
        case Collapsed(_) => claimed := claimed + CollapsedShare(index, |widths|, total);
        case Manual(share) => claimed := claimed + Clamp(share, 0.0, 1.0);
        case Auto => autoCount := autoCount + 1;
      }
    }
  }

  method Normalise(shares: array<real>)
    modifies shares
    ensures shares[..] == Normalised(old(shares[..]))
  {
    hide SumTo;
    ghost var was := shares[..];
    var sum := SumOf(shares);
    if sum > EPSILON {
      for i := 0 to shares.Length
        invariant forall k :: 0 <= k < i ==> shares[k] == was[k] / sum
        invariant forall k :: i <= k < shares.Length ==> shares[k] == was[k]
      {
        shares[i] := shares[i] / sum;
      }
    } else if shares.Length > 0 {
      var even := 1.0 / shares.Length as real;
      for i := 0 to shares.Length
        invariant forall k :: 0 <= k < i ==> shares[k] == even
      {
        shares[i] := even;
      }
    }
  }

  method SumOf(shares: array<real>) returns (sum: real)
    ensures sum == Sum(shares[..])
  {
    sum := 0.0;
    ghost var s := shares[..];
    for i := 0 to shares.Length
      invariant sum == SumTo(s, i)
    {
      sum := sum + shares[i];
    }
  }

  /** `resolve_shares` */
  method ResolveShares(widths: seq<PaneWidth>, total: real) returns (shares: array<real>)
    ensures fresh(shares) && shares[..] == Resolved(widths, total)
  {
    hide ClaimedTo, AutoCountTo, Normalised, Levied;
    var claimed, autoCount := FirstPass(widths, total);
    var autoShare := if autoCount == 0 then 0.0 else Max((1.0 - claimed) / autoCount as real, 0.0);
    assert autoShare == AutoShare(widths, total);
    shares := new real[|widths|];
    for index := 0 to |widths|
      invariant forall k :: 0 <= k < index ==> shares[k] == Claim(widths, total, k)
    {
      shares[index] := match widths[index]
        case Collapsed(_) => CollapsedShare(index, |widths|, total)
        case Manual(share) => Clamp(share, 0.0, 1.0)
        case Auto => autoShare;
    }
    assert shares[..] == Claims(widths, total);
    Normalise(shares);
    ApplyMinWidth(shares, widths, total);
  }

  method Commitments(s: seq<real>, widths: seq<PaneWidth>) returns (committed: real, openCount: nat)
    requires |s| == |widths|
    ensures committed == CommittedTo(s, widths, |s|) && openCount == OpenCountTo(widths, |s|)
  {
    committed, openCount := 0.0, 0;
    for index := 0 to |s|
      invariant committed == CommittedTo(s, widths, index) && openCount == OpenCountTo(widths, index)
    {
      if Open(widths[index]) {
        openCount := openCount + 1;
      } else {
        committed := committed + s[index];
      }
    }
  }

  method Imbalance(s: seq<real>, widths: seq<PaneWidth>, floor: real) returns (deficit: real, surplus: real)
    requires |s| == |widths|
    ensures deficit == DeficitTo(s, widths, floor, |s|) && surplus == SurplusTo(s, widths, floor, |s|)
  {
    deficit, surplus := 0.0, 0.0;
    for index := 0 to |s|
      invariant deficit == DeficitTo(s, widths, floor, index) && surplus == SurplusTo(s, widths, floor, index)
    {
      if !Open(widths[index]) {
        continue;
      }
      if s[index] < floor {
        deficit := deficit + floor - s[index];
      } else {
        surplus := surplus + s[index] - floor;
      }
    }
  }

  /** `apply_min_width` */
  method ApplyMinWidth(shares: array<real>, widths: seq<PaneWidth>, total: real)
    requires shares.Length == |widths|
    modifies shares
    ensures shares[..] == Levied(old(shares[..]), widths, total)
  {
    hide CommittedTo, OpenCountTo, DeficitTo, SurplusTo;
    ghost var was := shares[..];
    if total <= 0.0 || shares.Length < 2 {
      return;
    }
    var floor := MIN_PANE_WIDTH_PX / total;
    var committed, openCount := Commitments(shares[..], widths);
    if openCount == 0 || committed + FloorCost(floor, openCount) > 1.0 {
      return;
    }
    var deficit, surplus := Imbalance(shares[..], widths, floor);
    if deficit <= EPSILON || surplus <= EPSILON {
      return;
    }
    var levy := Min(deficit / surplus, 1.0);
    for index := 0 to shares.Length
      invariant forall k :: 0 <= k < index ==> shares[k] == LevyOne(was[k], widths[k], floor, levy)
      invariant forall k :: index <= k < shares.Length ==> shares[k] == was[k]
    {
      if !Open(widths[index]) {
        continue;
      }
      if shares[index] < floor {
        shares[index] := floor;
      } else {
        shares[index] := shares[index] - (shares[index] - floor) * levy;
      }
    }
  }

  /** Resolved shares are non-negative and spend the row exactly once. */
  lemma ResolvedSpendsOnce(widths: seq<PaneWidth>, total: real)
    requires |widths| > 0
    ensures NonNegative(Resolved(widths, total)) && Sum(Resolved(widths, total)) == 1.0
  {
    hide Claims, Normalised, Levied, SumTo;
    assert |Claims(widths, total)| == |widths| by { ClaimsLength(widths, total); }
    ClaimsAreNonNegative(widths, total);
    NormalisedSpendsOnce(Claims(widths, total));
    LevyIsFair(Normalised(Claims(widths, total)), widths, total);
  }

  lemma ClaimsLength(widths: seq<PaneWidth>, total: real)
    ensures |Claims(widths, total)| == |widths|
  {
  }

  // ---------------------------------------------------------------- the carving

  datatype Rect = Rect(left: real, top: real, right: real, bottom: real)

  datatype RowAreas = RowAreas(panes: seq<Rect>, dividers: seq<Rect>)

  datatype Axis = Horizontal | Vertical {
    function Start(area: Rect): real {
      if Horizontal? then area.left else area.top
    }

    function End(area: Rect): real {
      if Horizontal? then area.right else area.bottom
    }

    function Extent(area: Rect): real {
      End(area) - Start(area)
    }

    /** A band of `area` along this axis, whole across the other. */
    function Band(area: Rect, from: real, to: real): (r: Rect)
      ensures Start(r) == from && End(r) == Max(to, from) && Across(area, r)
    {
      match this
      case Horizontal => Rect(from, area.top, Max(to, from), area.bottom)
      case Vertical => Rect(area.left, from, area.right, Max(to, from))
    }

    predicate Across(area: Rect, r: Rect) {
      if Horizontal? then r.top == area.top && r.bottom == area.bottom
      else r.left == area.left && r.right == area.right
    }
  }

  /** Where divider `i` is centred: at the running share of the whole extent. */
  function Boundary(area: Rect, s: seq<real>, axis: Axis, i: nat): real
    requires i < |s|
  {
    axis.Start(area) + axis.Extent(area) * SumTo(s, i + 1)
  }

  function Head(area: Rect, s: seq<real>, axis: Axis, i: nat): real
    requires i < |s|
  {
    if i == 0 then axis.Start(area) else Boundary(area, s, axis, i - 1) + CANVAS_DIVIDER_PX / 2.0
  }

  function Pane(area: Rect, s: seq<real>, axis: Axis, i: nat): Rect
    requires i < |s|
  {
    if i + 1 < |s| then
      axis.Band(area, Head(area, s, axis, i), Boundary(area, s, axis, i) - CANVAS_DIVIDER_PX / 2.0)
    else
      axis.Band(area, Min(Head(area, s, axis, i), axis.End(area)), axis.End(area))
  }

  function Divider(area: Rect, s: seq<real>, axis: Axis, i: nat): Rect
    requires i + 1 < |s|
  {
    var half := CANVAS_DIVIDER_PX / 2.0;
    axis.Band(area, Boundary(area, s, axis, i) - half, Boundary(area, s, axis, i) + half)
  }

  /** The areas come in order, each beginning where the one before it ends, from
      the start of the row to its end. */
  ghost predicate Tiles(area: Rect, areas: RowAreas, axis: Axis) {
    var n := |areas.panes|;
    && n == |areas.dividers| + 1
    && axis.Start(areas.panes[0]) == axis.Start(area) && axis.End(areas.panes[n - 1]) == axis.End(area)
    && (forall i :: 0 <= i < n ==> axis.Across(area, areas.panes[i]) && axis.Extent(areas.panes[i]) >= 0.0)
    && (forall i :: 0 <= i < n - 1 ==> Seam(areas.panes[i], areas.dividers[i], areas.panes[i + 1], area, axis))
  }

  predicate Seam(before: Rect, divider: Rect, after: Rect, area: Rect, axis: Axis) {
    && axis.End(before) == axis.Start(divider) && axis.End(divider) == axis.Start(after)
    && axis.Extent(divider) == CANVAS_DIVIDER_PX && axis.Across(area, divider)
  }

  /** Each pane's share buys what its dividers take out of it. */
  ghost predicate CoversDividers(s: seq<real>, extent: real) {
    forall i: nat :: i < |s| ==> Covers(s, extent, i)
  }

  predicate Covers(s: seq<real>, extent: real, i: nat)
    requires i < |s|
  {
    extent * s[i] >= DividerCostPx(i, |s|)
  }

  function Carved(area: Rect, s: seq<real>, axis: Axis): (r: RowAreas)
    requires |s| >= 2
    ensures |r.panes| == |s| && |r.dividers| == |s| - 1
    ensures forall i :: 0 <= i < |s| ==> r.panes[i] == Pane(area, s, axis, i)
    ensures forall i :: 0 <= i < |s| - 1 ==> r.dividers[i] == Divider(area, s, axis, i)
  {
    RowAreas(seq(|s|, i requires 0 <= i < |s| => Pane(area, s, axis, i)),
             seq(|s| - 1, i requires 0 <= i < |s| - 1 => Divider(area, s, axis, i)))
  }

  lemma {:induction false} PartialSums(s: seq<real>, n: nat)
    requires NonNegative(s) && n <= |s|
    ensures 0.0 <= SumTo(s, n) <= Sum(s)
    decreases |s| - n
  {
    if n < |s| {
      PartialSums(s, n + 1);
    }
    SumsAreNonNegative(s, n);
  }

  lemma {:induction false} SumsAreNonNegative(s: seq<real>, n: nat)
    requires NonNegative(s) && n <= |s|
    ensures 0.0 <= SumTo(s, n)
  {
    if n > 0 {
      SumsAreNonNegative(s, n - 1);
    }
  }

  lemma Distributes(e: real, a: real, b: real)
    ensures e * (a + b) == e * a + e * b
  {
  }

  lemma Monotone(e: real, a: real, b: real)
    requires e >= 0.0 && a <= b
    ensures e * a <= e * b
  {
  }

  /** How far pane `i` reaches from its head to its own boundary. */
  lemma BoundaryStep(area: Rect, s: seq<real>, axis: Axis, i: nat)
    requires i < |s|
    ensures Boundary(area, s, axis, i)
         == (if i == 0 then axis.Start(area) else Boundary(area, s, axis, i - 1)) + axis.Extent(area) * s[i]
  {
    Distributes(axis.Extent(area), SumTo(s, i), s[i]);
  }

  lemma BoundaryInside(area: Rect, s: seq<real>, axis: Axis, i: nat)
    requires i < |s| && NonNegative(s) && Sum(s) == 1.0 && axis.Extent(area) >= 0.0
    ensures axis.Start(area) <= Boundary(area, s, axis, i) <= axis.End(area)
    ensures i + 1 == |s| ==> Boundary(area, s, axis, i) == axis.End(area)
  {
    hide SumTo;
    var extent, share := axis.Extent(area), SumTo(s, i + 1);
    PartialSums(s, i + 1);
    Monotone(extent, 0.0, share);
    Monotone(extent, share, 1.0);
    assert i + 1 == |s| ==> share == 1.0;
    assert extent * 0.0 == 0.0 && extent * 1.0 == extent;
  }

  /** A pane reaches the divider after it, or the end of the row, exactly when its
      share covers its dividers. */
  lemma PaneMeets(area: Rect, s: seq<real>, axis: Axis, i: nat)
    requires |s| >= 2 && i < |s| && NonNegative(s) && Sum(s) == 1.0 && axis.Extent(area) >= 0.0
    ensures axis.Across(area, Pane(area, s, axis, i)) && axis.Extent(Pane(area, s, axis, i)) >= 0.0
    ensures Covers(s, axis.Extent(area), i) <==>
      && axis.Start(Pane(area, s, axis, i)) == Head(area, s, axis, i)
      && axis.End(Pane(area, s, axis, i))
           == if i + 1 < |s| then axis.Start(Divider(area, s, axis, i)) else axis.End(area)
  {
    hide SumTo;
    BoundaryStep(area, s, axis, i);
    BoundaryInside(area, s, axis, i);
    hide Boundary;
  }

  /** Panes and dividers tile the row exactly when every share covers its dividers. */
  lemma TilesExactlyWhenCovered(area: Rect, s: seq<real>, axis: Axis)
    requires |s| >= 2 && NonNegative(s) && Sum(s) == 1.0 && axis.Extent(area) >= 0.0
    ensures Tiles(area, Carved(area, s, axis), axis) <==> CoversDividers(s, axis.Extent(area))
  {
    hide Pane, Boundary, SumTo, Covers, DividerCostPx;
    var areas := Carved(area, s, axis);
    forall i: nat | i < |s|
      ensures axis.Across(area, areas.panes[i]) && axis.Extent(areas.panes[i]) >= 0.0
      ensures Covers(s, axis.Extent(area), i) <==> PaneFits(area, s, axis, areas, i)
    {
      PaneMeets(area, s, axis, i);
    }
    if CoversDividers(s, axis.Extent(area)) {
      CoveredTiles(area, s, axis);
    }
    if Tiles(area, areas, axis) {
      forall i: nat | i < |s|
        ensures PaneFits(area, s, axis, areas, i)
      {
        assert i + 1 < |s| ==> Seam(areas.panes[i], areas.dividers[i], areas.panes[i + 1], area, axis);
        assert i > 0 ==> Seam(areas.panes[i - 1], areas.dividers[i - 1], areas.panes[i], area, axis);
      }
    }
  }

  predicate PaneFits(area: Rect, s: seq<real>, axis: Axis, areas: RowAreas, i: nat)
    requires |areas.panes| == |s| && |areas.dividers| + 1 == |s| && i < |s|
  {
    && axis.Start(areas.panes[i]) == Head(area, s, axis, i)
    && axis.End(areas.panes[i]) == if i + 1 < |s| then axis.Start(areas.dividers[i]) else axis.End(area)
  }

  lemma CoveredTiles(area: Rect, s: seq<real>, axis: Axis)
    requires |s| >= 2
    requires var areas := Carved(area, s, axis);
      forall i: nat :: i < |s| ==>
        && PaneFits(area, s, axis, areas, i)
        && axis.Across(area, areas.panes[i]) && axis.Extent(areas.panes[i]) >= 0.0
    ensures Tiles(area, Carved(area, s, axis), axis)
  {
    hide Pane, Boundary;
    var areas := Carved(area, s, axis);
    assert PaneFits(area, s, axis, areas, 0) && PaneFits(area, s, axis, areas, |s| - 1);
    forall i: nat | i + 1 < |s|
      ensures Seam(areas.panes[i], areas.dividers[i], areas.panes[i + 1], area, axis)
    {
      assert PaneFits(area, s, axis, areas, i) && PaneFits(area, s, axis, areas, i + 1);
    }
  }

  /** `split_axis` */
  method SplitAxis(area: Rect, widths: seq<PaneWidth>, axis: Axis) returns (areas: RowAreas)
    requires axis.Extent(area) >= 0.0
    ensures |widths| == 0 ==> areas == RowAreas([], [])
    ensures |widths| == 1 ==> areas == RowAreas([area], [])
    ensures |widths| >= 2 ==> areas == Carved(area, Resolved(widths, axis.Extent(area)), axis)
  {
    hide SumTo, Resolved, Pane, Divider, Boundary, Head;
    areas := RowAreas([], []);
    if |widths| == 0 {
      return;
    }
    if |widths| == 1 {
      areas := areas.(panes := [area]);
      return;
    }
    var total := axis.Extent(area);
    var resolved := ResolveShares(widths, total);
    var shares := resolved[..];
    assert shares == Resolved(widths, total);
    var half := CANVAS_DIVIDER_PX / 2.0;
    var boundaries := Boundaries(area, shares, axis);
    var head := axis.Start(area);
    assert head == Head(area, shares, axis, 0) by { HeadIs(area, shares, axis, 0); }
    for index := 0 to |boundaries|
      invariant |areas.panes| == |areas.dividers| == index
      invariant forall k :: 0 <= k < index ==> areas.panes[k] == Pane(area, shares, axis, k)
      invariant forall k :: 0 <= k < index ==> areas.dividers[k] == Divider(area, shares, axis, k)
      invariant head == Head(area, shares, axis, index)
    {
      ResolvedSpendsOnce(widths, total);
      BoundaryInside(area, shares, axis, index);
      var boundary := Clamp(boundaries[index], axis.Start(area), axis.End(area));
      PaneIs(area, shares, axis, index);
      HeadIs(area, shares, axis, index + 1);
      areas := areas.(
        panes := areas.panes + [axis.Band(area, head, boundary - half)],
        dividers := areas.dividers + [axis.Band(area, boundary - half, boundary + half)]);
      head := boundary + half;
    }
    PaneIs(area, shares, axis, |shares| - 1);
    areas := areas.(panes := areas.panes + [axis.Band(area, Min(head, axis.End(area)), axis.End(area))]);
    assert areas.panes == Carved(area, shares, axis).panes;
    assert areas.dividers == Carved(area, shares, axis).dividers;
  }

  lemma HeadIs(area: Rect, s: seq<real>, axis: Axis, i: nat)
    requires i < |s|
    ensures Head(area, s, axis, i)
         == if i == 0 then axis.Start(area) else Boundary(area, s, axis, i - 1) + CANVAS_DIVIDER_PX / 2.0
  {
  }

  lemma PaneIs(area: Rect, s: seq<real>, axis: Axis, i: nat)
    requires i < |s|
    ensures var half := CANVAS_DIVIDER_PX / 2.0;
      && (i + 1 < |s| ==>
            && Pane(area, s, axis, i) == axis.Band(area, Head(area, s, axis, i), Boundary(area, s, axis, i) - half)
            && Divider(area, s, axis, i)
                 == axis.Band(area, Boundary(area, s, axis, i) - half, Boundary(area, s, axis, i) + half))
      && (i + 1 == |s| ==>
            Pane(area, s, axis, i) == axis.Band(area, Min(Head(area, s, axis, i), axis.End(area)), axis.End(area)))
  {
  }

  method Boundaries(area: Rect, shares: seq<real>, axis: Axis) returns (boundaries: seq<real>)
    requires |shares| >= 2
    ensures |boundaries| == |shares| - 1
    ensures forall k: nat :: k < |boundaries| ==> boundaries[k] == Boundary(area, shares, axis, k)
  {
    boundaries := [];
    var cumulative := 0.0;
    for index := 0 to |shares| - 1
      invariant |boundaries| == index && cumulative == SumTo(shares, index)
      invariant forall k: nat :: k < index ==> boundaries[k] == Boundary(area, shares, axis, k)
    {
      cumulative := cumulative + shares[index];
      assert cumulative == SumTo(shares, index + 1);
      var boundary := axis.Start(area) + axis.Extent(area) * cumulative;
      assert boundary == Boundary(area, shares, axis, index);
      boundaries := boundaries + [boundary];
    }
  }

  // -------------------------------------------------------------- when it holds

  lemma {:induction false} OneOfTheSum(s: seq<real>, i: nat, n: nat)
    requires NonNegative(s) && i < n <= |s|
    ensures s[i] <= SumTo(s, n)
  {
    SumsAreNonNegative(s, n - 1);
    if i < n - 1 {
      OneOfTheSum(s, i, n - 1);
    }
  }

  lemma Divides(a: real, b: real)
    requires b != 0.0
    ensures b * (a / b) == a
  {
  }

  lemma StrictlyMonotone(e: real, a: real, b: real)
    requires e > 0.0 && a < b
    ensures a * e < b * e
  {
  }

  lemma CancelFactor(a: real, b: real, c: real)
    requires c > 0.0 && a * c >= b * c
    ensures a >= b
  {
    if a < b {
      StrictlyMonotone(c, a, b);
    }
  }

  lemma Regroup(a: real, b: real, c: real)
    ensures a * b * c == a * (c * b)
  {
  }

  function Times(a: real, b: real): real { a * b }

  lemma TimesDivides(a: real, b: real)
    requires b != 0.0
    ensures Times(b, a / b) == a
  {
  }

  lemma TimesUp(e: real, a: real, b: real)
    requires e >= 0.0 && a <= b
    ensures Times(e, a) <= Times(e, b)
  {
  }

  lemma TimesThree(e: real)
    ensures Times(e, 3.0) == e + e + e
  {
  }

  lemma GripCost(cost: real, sum: real)
    requires 0.0 <= cost <= CANVAS_DIVIDER_PX && sum <= 3.0
    ensures Times(cost, sum) <= COLLAPSED_PANE_WIDTH_PX + cost
  {
    hide Times;
    TimesUp(cost, sum, 3.0);
    TimesThree(cost);
  }

  lemma RailOutlivesItsGrip(cost: real, total: real, sum: real)
    requires 0.0 <= cost <= CANVAS_DIVIDER_PX && total > 0.0 && 0.0 < sum <= 3.0
    ensures Times(total, (COLLAPSED_PANE_WIDTH_PX + cost) / total / sum) >= cost
  {
    hide Times;
    var rail := COLLAPSED_PANE_WIDTH_PX + cost;
    TimesDivides(rail, total);
    TimesDivides(rail / total, sum);
    GripCost(cost, sum);
    FromProducts(rail, cost, total, sum, rail / total, rail / total / sum);
  }

  lemma FromProducts(rail: real, cost: real, total: real, sum: real, each: real, share: real)
    requires Times(total, each) == rail && Times(sum, share) == each && Times(cost, sum) <= rail && sum > 0.0
    ensures Times(total, share) >= cost
  {
    Regroup(total, share, sum);
    CancelFactor(total * share, cost, sum);
  }

  /** A collapsed pane's share of a row that is not over-claimed threefold covers
      the dividers its grip sits on. */
  lemma CollapsedCovers(widths: seq<PaneWidth>, total: real, i: nat)
    requires i < |widths| && widths[i].Collapsed? && 0.0 < total <= 1_000_000.0
    requires Sum(Claims(widths, total)) <= 3.0
    ensures Covers(Normalised(Claims(widths, total)), total, i)
  {
    hide SumTo, AutoShare;
    var claims := Claims(widths, total);
    ClaimsAreNonNegative(widths, total);
    OneOfTheSum(claims, i, |claims|);
    var cost := DividerCostPx(i, |widths|);
    var rail := COLLAPSED_PANE_WIDTH_PX + cost;
    assert claims[i] == rail / total;
    RailIsVisible(rail, total);
    RailOutlivesItsGrip(cost, total, Sum(claims));
  }

  lemma RailIsVisible(rail: real, total: real)
    requires rail >= COLLAPSED_PANE_WIDTH_PX && 0.0 < total <= 1_000_000.0
    ensures rail / total > EPSILON
  {
    assert total * EPSILON < rail;
    assert rail / total * total == rail;
  }

  lemma FloorCovers(total: real, share: real)
    requires 0.0 < total <= 1_000_000.0 && share >= MIN_PANE_WIDTH_PX / total - EPSILON
    ensures total * share >= CANVAS_DIVIDER_PX
  {
    var floor := MIN_PANE_WIDTH_PX / total;
    assert total * floor == MIN_PANE_WIDTH_PX by {
      Divides(MIN_PANE_WIDTH_PX, total);
    }
    assert total * (floor - EPSILON) == total * floor - total * EPSILON by {
      Distributes(total, floor - EPSILON, EPSILON);
    }
    Monotone(EPSILON, total, 1_000_000.0);
    Monotone(total, floor - EPSILON, share);
  }

  /** A row that can afford its floors, and whose panes do not claim it more than
      three times over, is tiled. */
  lemma AffordableRowsTile(area: Rect, widths: seq<PaneWidth>, axis: Axis)
    requires |widths| >= 2 && 0.0 < axis.Extent(area) <= 1_000_000.0
    requires Sum(Claims(widths, axis.Extent(area))) <= 3.0
    requires var total := axis.Extent(area);
      Affordable(Normalised(Claims(widths, total)), widths, MIN_PANE_WIDTH_PX / total)
    ensures Tiles(area, Carved(area, Resolved(widths, axis.Extent(area)), axis), axis)
  {
    hide SumTo, Tiles, Levied, Normalised, Claims, Affordable;
    var total := axis.Extent(area);
    var s, t := Normalised(Claims(widths, total)), Resolved(widths, total);
    ClaimsLength(widths, total);
    ClaimsAreNonNegative(widths, total);
    NormalisedSpendsOnce(Claims(widths, total));
    LevyIsFair(s, widths, total);
    forall i: nat | i < |widths|
      ensures Covers(t, total, i)
    {
      if Open(widths[i]) {
        FloorCovers(total, t[i]);
      } else {
        CollapsedCovers(widths, total, i);
      }
    }
    TilesExactlyWhenCovered(area, t, axis);
  }
}
