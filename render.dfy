/** The two integer-valued rendering items: the frame-rate limit stepper,
    where -1 stands for "unlimited", and the VSync toggle. The host globals
    they update (the application's target frame rate and the quality
    settings' vertical-sync count) are 32-bit signed integers. */
module Render {

  type Int32 = x: int | -0x8000_0000 <= x < 0x8000_0000

  /** Two's-complement wrap-around of unchecked 32-bit arithmetic. */
  function Wrap32(x: int): (r: Int32)
    ensures -0x8000_0000 <= x < 0x8000_0000 ==> r == x
  {
    (x + 0x8000_0000) % 0x1_0000_0000 - 0x8000_0000
  }

  const Unlimited: Int32 := -1

  // ---------------------------------------------------------------------
  // Frame-rate limit

  /** The frame-rate limit item's three actions: enter, left and right. */
  datatype LimitOp = Unlimit | StepDown | StepUp

  /** Right: unlimited becomes 60; otherwise up by 10, and anything above
      240 becomes unlimited. */
  function IncrementLimit(limit: Int32): Int32
  {
    if limit == Unlimited then 60
    else
      var next := Wrap32(limit + 10);
      if next > 240 then Unlimited else next
  }

  /** Left: unlimited becomes 30; otherwise down by 10, and a result of
      exactly 0 becomes unlimited. */
  function DecrementLimit(limit: Int32): Int32
  {
    if limit == Unlimited then 30
    else
      var next := Wrap32(limit - 10);
      if next == 0 then Unlimited else next
  }

  function ApplyLimitOp(limit: Int32, op: LimitOp): Int32
  {
    match op
    case Unlimit => Unlimited
    case StepDown => DecrementLimit(limit)
    case StepUp => IncrementLimit(limit)
  }

  /** The limit after a sequence of actions, applied first to last. */
  function RunLimitOps(limit: Int32, ops: seq<LimitOp>): Int32
    decreases |ops|
  {
    if |ops| == 0 then limit else RunLimitOps(ApplyLimitOp(limit, ops[0]), ops[1..])
  }

  /** The limits the item can reach from unlimited: -1, 10, 20, ..., 240. */
  predicate ReachableLimit(limit: int)
  {
    limit == Unlimited || (10 <= limit <= 240 && limit % 10 == 0)
  }

  /** The value column of the frame-rate limit item. */
  function LimitValue(limit: int): string
  {
    if limit == Unlimited then "Unlimited" else IntToString(limit)
  }

  // ---------------------------------------------------------------------
  // VSync

  /** Toggle: 0 becomes 1, anything else becomes 0. */
  function ToggleVSync(count: Int32): Int32
  {
    if count == 0 then 1 else 0
  }

  /** The value column of the VSync item. */
  function VSyncValue(count: int): string
  {
    if count == 0 then "Disabled" else "Enabled"
  }

  // ---------------------------------------------------------------------
  // Decimal formatting, as string interpolation of an int prints it

  function DigitChar(d: nat): char
    requires d < 10
  {
    "0123456789"[d]
  }

  function NatToString(n: nat): (s: string)
    ensures |s| >= 1
  {
    if n < 10 then [DigitChar(n)] else NatToString(n / 10) + [DigitChar(n % 10)]
  }

  function IntToString(i: int): string
  {
    if i < 0 then "-" + NatToString(-i) else NatToString(i)
  }

  predicate IsDigit(c: char)
  {
    '0' <= c <= '9'
  }

  /** Reads back a string of decimal digits. */
  function DigitsValue(s: string): nat
    requires forall k :: 0 <= k < |s| ==> IsDigit(s[k])
  {
    if |s| == 0 then 0
    else
      assert IsDigit(s[|s| - 1]);
      DigitsValue(s[..|s| - 1]) * 10 + (s[|s| - 1] as int - '0' as int)
  }

  /** NatToString writes only digits, without leading zeros, and reading
      them back gives n. */
  lemma {:induction false} NatToStringRoundTrip(n: nat)
    ensures forall k :: 0 <= k < |NatToString(n)| ==> IsDigit(NatToString(n)[k])
    ensures DigitsValue(NatToString(n)) == n
    ensures |NatToString(n)| > 1 ==> NatToString(n)[0] != '0'
  {
    var s := NatToString(n);
    if n >= 10 {
      NatToStringRoundTrip(n / 10);
      assert s[..|s| - 1] == NatToString(n / 10);
      assert s[0] == NatToString(n / 10)[0];
    }
  }

  /** The decimal form of an int starts with a digit or a minus sign. */
  lemma IntToStringStart(i: int)
    ensures IntToString(i)[0] == '-' <==> i < 0
    ensures i >= 0 ==> IsDigit(IntToString(i)[0])
  {
    NatToStringRoundTrip(if i < 0 then -i else i);
  }

  // ---------------------------------------------------------------------
  // Properties of the frame-rate limit

  /** Enter, left and right keep the limit among -1, 10, ..., 240. */
  lemma ApplyKeepsReachable(limit: Int32, op: LimitOp)
    requires ReachableLimit(limit)
    ensures ReachableLimit(ApplyLimitOp(limit, op))
  {
  }

  /** Any sequence of enter, left and right keeps the limit among
      -1, 10, ..., 240. */
  lemma {:induction false} RunKeepsReachable(limit: Int32, ops: seq<LimitOp>)
    requires ReachableLimit(limit)
    ensures ReachableLimit(RunLimitOps(limit, ops))
    decreases |ops|
  {
    if |ops| > 0 {
      ApplyKeepsReachable(limit, ops[0]);
      RunKeepsReachable(ApplyLimitOp(limit, ops[0]), ops[1..]);
    }
  }

  /** Increment as stated by the item: -1 goes to 60, any other value goes
      up by 10 and a result above 240 becomes -1. */
  lemma IncrementCases(limit: Int32)
    ensures limit == Unlimited ==> IncrementLimit(limit) == 60
    ensures limit != Unlimited && limit + 10 < 0x8000_0000 ==>
            IncrementLimit(limit) == (if limit + 10 > 240 then Unlimited else limit + 10)
    ensures limit + 10 >= 0x8000_0000 ==> IncrementLimit(limit) == limit + 10 - 0x1_0000_0000
  {
  }

  /** Decrement as stated by the item: -1 goes to 30, any other value goes
      down by 10 and a result of exactly 0 becomes -1. */
  lemma DecrementCases(limit: Int32)
    ensures limit == Unlimited ==> DecrementLimit(limit) == 30
    ensures limit != Unlimited && limit - 10 >= -0x8000_0000 ==>
            DecrementLimit(limit) == (if limit == 10 then Unlimited else limit - 10)
    ensures limit - 10 < -0x8000_0000 ==> DecrementLimit(limit) == limit - 10 + 0x1_0000_0000
  {
  }

  /** Between the two ends of the range, left undoes right and right undoes left. */
  lemma StepsUndoEachOther(limit: Int32)
    requires ReachableLimit(limit)
    ensures 20 <= limit ==> IncrementLimit(DecrementLimit(limit)) == limit
    ensures 10 <= limit <= 230 ==> DecrementLimit(IncrementLimit(limit)) == limit
  {
  }

  /** Twenty presses of right from unlimited go through 60, 70, ..., 240
      and come back to unlimited. */
  lemma IncrementCycle()
    ensures RunLimitOps(Unlimited, seq(20, _ => StepUp)) == Unlimited
  {
    var ups := seq(20, _ => StepUp);
    assert ups[0] == StepUp;
    assert ups[1..] == seq(19, _ => StepUp);
    IncrementRun(60, 19);
  }

  /** From a limit that is a multiple of 10 between 60 and 240, n presses
      of right step by 10 until the value passes 240. */
  lemma {:induction false} IncrementRun(limit: Int32, n: nat)
    requires 60 <= limit <= 240 && limit % 10 == 0
    requires n == (240 - limit) / 10 + 1
    ensures RunLimitOps(limit, seq(n, _ => StepUp)) == Unlimited
    decreases n
  {
    var ups := seq(n, _ => StepUp);
    assert ups[0] == StepUp;
    if limit == 240 {
      assert ups[1..] == [];
    } else {
      assert ups[1..] == seq(n - 1, _ => StepUp);
      IncrementRun(limit + 10, n - 1);
    }
  }

  /** The value shows "Unlimited" exactly for -1 and the decimal number
      otherwise, which reads back to the limit. */
  lemma LimitValueShows(limit: int)
    ensures LimitValue(limit) == "Unlimited" <==> limit == Unlimited
    ensures limit >= 0 ==> forall k :: 0 <= k < |LimitValue(limit)| ==> IsDigit(LimitValue(limit)[k])
    ensures limit >= 0 ==> DigitsValue(LimitValue(limit)) == limit
    ensures limit >= 0 && |LimitValue(limit)| > 1 ==> LimitValue(limit)[0] != '0'
  {
    IntToStringStart(limit);
    if limit >= 0 {
      NatToStringRoundTrip(limit);
    }
  }

  // ---------------------------------------------------------------------
  // Properties of VSync

  /** A toggle always changes the displayed value, and two toggles bring
      the displayed value back; the count itself comes back only from 0 or 1. */
  lemma ToggleDisplay(count: Int32)
    ensures VSyncValue(count) == "Disabled" <==> count == 0
    ensures VSyncValue(ToggleVSync(count)) != VSyncValue(count)
    ensures VSyncValue(ToggleVSync(ToggleVSync(count))) == VSyncValue(count)
    ensures ToggleVSync(ToggleVSync(count)) == count <==> count == 0 || count == 1
  {
  }

  // ---------------------------------------------------------------------
  // The host globals, updated in place by the items' actions

  class RenderSettings {
    var targetFrameRate: Int32
    var vSyncCount: Int32

    constructor (targetFrameRate: Int32, vSyncCount: Int32)
      ensures this.targetFrameRate == targetFrameRate && this.vSyncCount == vSyncCount
    {
      this.targetFrameRate := targetFrameRate;
      this.vSyncCount := vSyncCount;
    }

    /** The frame-rate limit item's enter action. */
    method SetUnlimited()
      modifies this
      ensures targetFrameRate == Unlimited && vSyncCount == old(vSyncCount)
    {
      targetFrameRate := -1;
    }

    method Decrement()
      modifies this
      ensures targetFrameRate == DecrementLimit(old(targetFrameRate))
      ensures vSyncCount == old(vSyncCount)
      ensures ReachableLimit(old(targetFrameRate)) ==> ReachableLimit(targetFrameRate)
    {
      if ReachableLimit(targetFrameRate) {
        ApplyKeepsReachable(targetFrameRate, StepDown);
      }
      if targetFrameRate == -1 {
        targetFrameRate := 30;
      } else {
        targetFrameRate := Wrap32(targetFrameRate - 10);
        if targetFrameRate == 0 {
          targetFrameRate := -1;
        }
      }
    }

    method Increment()
      modifies this
      ensures targetFrameRate == IncrementLimit(old(targetFrameRate))
      ensures vSyncCount == old(vSyncCount)
      ensures ReachableLimit(old(targetFrameRate)) ==> ReachableLimit(targetFrameRate)
    {
      if ReachableLimit(targetFrameRate) {
        ApplyKeepsReachable(targetFrameRate, StepUp);
      }
      if targetFrameRate == -1 {
        targetFrameRate := 60;
      } else {
        targetFrameRate := Wrap32(targetFrameRate + 10);
        if targetFrameRate > 240 {
          targetFrameRate := -1;
        }
      }
    }

    /** The VSync item's enter, left and right action. */
    method Toggle()
      modifies this
      ensures vSyncCount == ToggleVSync(old(vSyncCount))
      ensures targetFrameRate == old(targetFrameRate)
      ensures VSyncValue(vSyncCount) != VSyncValue(old(vSyncCount))
    {
      if vSyncCount == 0 {
        vSyncCount := 1;
      } else {
        vSyncCount := 0;
      }
    }
  }
}
