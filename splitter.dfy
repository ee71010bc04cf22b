/**
 * The Splitter: it validates a cable and a cut count, partitions the cable's
 * length with two integer divisions, names each piece `<name>-<padded index>`
 * and appends the pieces to a list the object keeps between calls.
 *
 * The Python body of `split` cannot run as written; this model reads it as
 * its authors evidently meant (each reading is marked where it applies):
 *  - `self.equal_sections`, `self.equal_length` and `self.remainder` are
 *    never assigned; they are read as the locals of the same names;
 *  - `self.tolal_sections` (misspelt) and `self.total_sections` are one
 *    value, the field `totalSections`;
 *  - `__format_cable_name` is called with a third argument, the total piece
 *    count, which sets the padding width (FormatCableName); the two-argument
 *    body as written, which takes the width from `result`, is
 *    FormatCableNameAsWritten, and EqualPiecesAsWritten names pieces with it.
 * Every other line is kept as written, defects included: the extra piece is
 * `equal_length + 1` long, and `result` is never cleared.
 */
module Splitting {
  import opened Results
  import opened Cables
  import opened Decimal

  const CableMinLength := 2
  const CableMaxLength := 1024
  const TimesMin := 1
  const TimesMax := 1024

  /**
   * What `split` raises. TypeError stands for the `isinstance` checks, which
   * the static types here make impossible, so nothing produces it.
   */
  datatype SplitError =
    | TypeError
    | TimesOutOfRange
    | LengthOutOfRange
    | ZeroDivision

  /** `__validate`: the cut count is checked before the cable length. */
  function Validate(cable: Cable, times: int): (r: Outcome<SplitError>)
    ensures r.Pass? <==> TimesMin <= times <= TimesMax && CableMinLength <= cable.length <= CableMaxLength
    ensures !(TimesMin <= times <= TimesMax) ==> r == Fail(TimesOutOfRange)
    ensures (TimesMin <= times <= TimesMax && !(CableMinLength <= cable.length <= CableMaxLength))
              ==> r == Fail(LengthOutOfRange)
  {
    if times < TimesMin || times > TimesMax then
      Fail(TimesOutOfRange)
    else if cable.length < CableMinLength || cable.length > CableMaxLength then
      Fail(LengthOutOfRange)
    else
      Pass
  }

  /**
   * `__format_cable_name(name, index, total)` as the call sites use it: the
   * index is zero-filled to the number of digits of the piece count `total`.
   */
  function FormatCableName(name: string, index: nat, total: nat): string
  {
    name + "-" + ZFill(NatToString(index), Digits(total))
  }

  /**
   * The two-argument body as written: the width is the number of digits of
   * `len(self.result)`, the pieces already in `result` when the name is made.
   */
  function FormatCableNameAsWritten(name: string, index: nat, result: seq<Cable>): string
  {
    name + "-" + ZFill(NatToString(index), Digits(|result|))
  }

  /**
   * Reads a piece name back: the index it carries after `name-`, with any
   * leading zeros dropped.
   */
  function ParseIndex(pieceName: string, name: string): Option<nat>
  {
    var prefix := name + "-";
    if |pieceName| > |prefix| && pieceName[..|prefix|] == prefix && AllDigits(pieceName[|prefix|..]) then
      var digits := StripLeadingZeros(pieceName[|prefix|..]);
      StripKeepsDigits(pieceName[|prefix|..]);
      Some(StringToNat(digits))
    else
      None
  }

  /** The locals `split` computes from the length and the cut count. */
  datatype Plan = Plan(
    equalLength: int,
    remainderLength: int,
    extraSections: int,
    remainder: int,
    equalSections: int,
    totalSections: int)

  /**
   * The arithmetic of `split` on validated input: `divmod(length, times+1)`,
   * then `divmod(remainder_length, equal_length)`, which divides by zero
   * exactly when there are more sections than units of length. The piece
   * count is the equal sections plus one when the second remainder is not
   * zero, so never fewer than `times + 1`. PlanDivMod states the two
   * division identities.
   */
  function ComputePlan(length: int, times: int): (r: Result<Plan, SplitError>)
    requires TimesMin <= times && CableMinLength <= length
    ensures r.Failure? <==> times + 1 > length
    ensures r.Failure? ==> r.error == ZeroDivision
    ensures r.Success? ==>
      var p := r.value;
      && 0 <= p.remainderLength < times + 1
      && p.equalLength >= 1
      && 0 <= p.remainder < p.equalLength
      && p.extraSections >= 0
      && p.equalSections == times + 1 + p.extraSections
      && p.totalSections == p.equalSections + (if p.remainder > 0 then 1 else 0)
      && p.totalSections >= times + 1
  {
    var initialSections := times + 1;
    var equalLength := length / initialSections;
    var remainderLength := length % initialSections;
    DivModFacts(length, initialSections);
    if equalLength == 0 then
      Failure(ZeroDivision)
    else
      var extraSections := remainderLength / equalLength;
      var remainder := remainderLength % equalLength;
      DivModFacts(remainderLength, equalLength);
      var equalSections := initialSections + extraSections;
      var totalSections := if remainder != 0 then equalSections + 1 else equalSections;
      Success(Plan(equalLength, remainderLength, extraSections, remainder, equalSections, totalSections))
  }

  /**
   * The two `divmod` identities: the length is `times + 1` equal sections plus
   * the first remainder, and the first remainder is `extra_sections` more
   * equal sections plus the second remainder; so the equal sections cover
   * all of the length but the second remainder.
   */
  lemma PlanDivMod(length: int, times: int)
    requires TimesMin <= times && times + 1 <= length
    ensures var p := ComputePlan(length, times).value;
            && length == (times + 1) * p.equalLength + p.remainderLength
            && p.remainderLength == p.extraSections * p.equalLength + p.remainder
            && p.equalSections * p.equalLength == length - p.remainder
  {
    var p := ComputePlan(length, times).value;
    DivModFacts(length, times + 1);
    DivModFacts(p.remainderLength, p.equalLength);
    Distribute(times + 1, p.extraSections, p.equalLength);
  }

  /** What Python's `divmod` gives on a non-negative dividend and a positive divisor. */
  lemma DivModFacts(a: int, b: int)
    requires a >= 0 && b > 0
    ensures a == b * (a / b) + a % b && 0 <= a % b < b
    ensures a / b >= 0
    ensures a / b == 0 <==> a < b
  {
  }

  lemma Distribute(a: int, b: int, c: int)
    ensures (a + b) * c == a * c + b * c
  {
  }

  /** The first `count` pieces the loop appends, all `len` long. */
  function EqualPieces(name: string, count: nat, len: int, total: nat): seq<Cable>
    decreases count
  {
    if count == 0 then []
    else EqualPieces(name, count - 1, len, total) + [Cable(len, FormatCableName(name, count - 1, total))]
  }

  /** Everything one successful call appends to `result`, in order. */
  function NewPieces(name: string, p: Plan): seq<Cable>
    requires p.equalSections >= 0 && p.totalSections >= 1
  {
    EqualPieces(name, p.equalSections, p.equalLength, p.totalSections)
      + (if p.remainder != 0
         then [Cable(p.equalLength + 1, FormatCableName(name, p.totalSections - 1, p.totalSections))]
         else [])
  }

  /** What one call of `split` produces on its own, or the error it raises. */
  function SplitPieces(cable: Cable, times: int): Result<seq<Cable>, SplitError>
  {
    match Validate(cable, times)
    case Fail(e) => Failure(e)
    case Pass =>
      match ComputePlan(cable.length, times)
      case Failure(e) => Failure(e)
      case Success(p) => Success(NewPieces(cable.name, p))
  }

  lemma {:induction false} EqualPiecesAt(name: string, count: nat, len: int, total: nat)
    ensures |EqualPieces(name, count, len, total)| == count
    ensures forall k :: 0 <= k < count ==>
              EqualPieces(name, count, len, total)[k] == Cable(len, FormatCableName(name, k, total))
    decreases count
  {
    if count > 0 {
      var prev := EqualPieces(name, count - 1, len, total);
      var s := EqualPieces(name, count, len, total);
      EqualPiecesAt(name, count - 1, len, total);
      assert s == prev + [Cable(len, FormatCableName(name, count - 1, total))];
      forall k | 0 <= k < count
        ensures s[k] == Cable(len, FormatCableName(name, k, total))
      {
        if k < count - 1 {
          assert s[k] == prev[k];
        }
      }
    }
  }

  lemma {:induction false} EqualPiecesTotal(name: string, count: nat, len: int, total: nat)
    ensures TotalLength(EqualPieces(name, count, len, total)) == count * len
    decreases count
  {
    if count > 0 {
      var s := EqualPieces(name, count, len, total);
      EqualPiecesAt(name, count, len, total);
      assert s[..|s| - 1] == EqualPieces(name, count - 1, len, total);
      EqualPiecesTotal(name, count - 1, len, total);
      assert (count - 1) * len + len == count * len;
    }
  }

  /**
   * The pieces of a successful split: `total_sections` of them, named with
   * indices 0, 1, ... in order; the first `equal_sections` are `equal_length`
   * long and, when the second remainder is not zero, the last one is
   * `equal_length + 1` long.
   */
  lemma PiecesShape(cable: Cable, times: int)
    requires Validate(cable, times).Pass? && times + 1 <= cable.length
    ensures var p := ComputePlan(cable.length, times).value;
            var s := NewPieces(cable.name, p);
            && |s| == p.totalSections >= times + 1
            && (forall k :: 0 <= k < |s| ==> s[k].name == FormatCableName(cable.name, k, p.totalSections))
            && (forall k :: 0 <= k < p.equalSections ==> s[k].length == p.equalLength)
            && (p.remainder > 0 ==> s[p.totalSections - 1].length == p.equalLength + 1)
  {
    var p := ComputePlan(cable.length, times).value;
    EqualPiecesAt(cable.name, p.equalSections, p.equalLength, p.totalSections);
  }

  /**
   * A valid split with at least one unit per section succeeds with
   * `total_sections` pieces.
   */
  lemma PieceCount(cable: Cable, times: int)
    requires Validate(cable, times).Pass? && times + 1 <= cable.length
    ensures SplitPieces(cable, times).Success?
    ensures |SplitPieces(cable, times).value| == ComputePlan(cable.length, times).value.totalSections
  {
    var p := ComputePlan(cable.length, times).value;
    EqualPiecesAt(cable.name, p.equalSections, p.equalLength, p.totalSections);
  }

  /**
   * The equal pieces add up to `length - remainder`; the extra piece adds
   * `equal_length + 1` on top.
   */
  lemma PiecesTotal(cable: Cable, times: int)
    requires Validate(cable, times).Pass? && times + 1 <= cable.length
    ensures var p := ComputePlan(cable.length, times).value;
            TotalLength(NewPieces(cable.name, p))
              == cable.length - p.remainder + (if p.remainder > 0 then p.equalLength + 1 else 0)
  {
    var p := ComputePlan(cable.length, times).value;
    NewPiecesTotal(cable.name, p);
    PlanDivMod(cable.length, times);
  }

  lemma NewPiecesTotal(name: string, p: Plan)
    requires p.equalSections >= 0 && p.totalSections >= 1
    ensures TotalLength(NewPieces(name, p))
              == p.equalSections * p.equalLength + (if p.remainder != 0 then p.equalLength + 1 else 0)
  {
    var eq := EqualPieces(name, p.equalSections, p.equalLength, p.totalSections);
    EqualPiecesTotal(name, p.equalSections, p.equalLength, p.totalSections);
    if p.remainder != 0 {
      var last := Cable(p.equalLength + 1, FormatCableName(name, p.totalSections - 1, p.totalSections));
      assert NewPieces(name, p) == eq + [last];
      TotalLengthSnoc(eq, last);
    } else {
      assert NewPieces(name, p) == eq;
    }
  }

  /**
   * Length is conserved exactly when the second remainder is zero; otherwise
   * the pieces are longer in total than the cable.
   */
  lemma ConservedIffNoRemainder(cable: Cable, times: int)
    requires Validate(cable, times).Pass? && times + 1 <= cable.length
    ensures var p := ComputePlan(cable.length, times).value;
            var sum := TotalLength(NewPieces(cable.name, p));
            && (sum == cable.length <==> p.remainder == 0)
            && (p.remainder > 0 ==> sum > cable.length)
  {
    PiecesTotal(cable, times);
  }

  /** Every suffix of one result has the same width: the digits of the count. */
  lemma SuffixWidthUniform(name: string, index: nat, total: nat)
    requires index < total
    ensures |FormatCableName(name, index, total)| == |name| + 1 + Digits(total)
  {
    DigitsMonotone(index, total);
    ZFillSpec(NatToString(index), Digits(total));
  }

  /** Stripping `name-` and the leading zeros gives back the index. */
  lemma NameRoundTrip(name: string, index: nat, total: nat)
    ensures ParseIndex(FormatCableName(name, index, total), name) == Some(index)
  {
    var prefix := name + "-";
    var suffix := ZFill(NatToString(index), Digits(total));
    var s := FormatCableName(name, index, total);
    assert s == prefix + suffix;
    assert s[..|prefix|] == prefix && s[|prefix|..] == suffix;
    ZFillDigits(index, Digits(total));
    StripZFill(index, Digits(total));
    NatToStringRoundTrip(index);
  }

  /**
   * The loop of `split` with the naming as written: each piece is named from
   * `result` as it stands just before that piece is appended.
   */
  function EqualPiecesAsWritten(result: seq<Cable>, name: string, count: nat, len: int): seq<Cable>
    decreases count
  {
    if count == 0 then result
    else
      var before := EqualPiecesAsWritten(result, name, count - 1, len);
      before + [Cable(len, FormatCableNameAsWritten(name, count - 1, before))]
  }

  /** `result` after one successful call with the naming as written. */
  function NewPiecesAsWritten(result: seq<Cable>, name: string, p: Plan): seq<Cable>
    requires p.equalSections >= 0 && p.totalSections >= 1
  {
    var equalPart := EqualPiecesAsWritten(result, name, p.equalSections, p.equalLength);
    if p.remainder != 0
    then equalPart + [Cable(p.equalLength + 1, FormatCableNameAsWritten(name, p.totalSections - 1, equalPart))]
    else equalPart
  }

  /**
   * The loop as written keeps what `result` held and appends `count` pieces;
   * the piece at position `j` has index `j - |result|` zero-filled to the
   * digits of `j`, the length of `result` when it was named.
   */
  lemma {:induction false} EqualPiecesAsWrittenAt(result: seq<Cable>, name: string, count: nat, len: int)
    ensures var s := EqualPiecesAsWritten(result, name, count, len);
            && |s| == |result| + count
            && s[..|result|] == result
            && (forall j :: |result| <= j < |s| ==>
                  s[j] == Cable(len, name + "-" + ZFill(NatToString(j - |result|), Digits(j))))
    decreases count
  {
    if count > 0 {
      var before := EqualPiecesAsWritten(result, name, count - 1, len);
      var s := EqualPiecesAsWritten(result, name, count, len);
      EqualPiecesAsWrittenAt(result, name, count - 1, len);
      assert s == before + [Cable(len, FormatCableNameAsWritten(name, count - 1, before))];
      assert s[..|result|] == before[..|result|];
      forall j | |result| <= j < |s|
        ensures s[j] == Cable(len, name + "-" + ZFill(NatToString(j - |result|), Digits(j)))
      {
        if j < |s| - 1 {
          assert s[j] == before[j];
        }
      }
    }
  }

  /**
   * On an empty `result`, the loop as written names piece `k` when `result`
   * holds `k` pieces; `str(k)` already has `Digits(k)` digits, so nothing is
   * padded.
   */
  lemma FreshEqualPiecesUnpadded(name: string, count: nat, len: int)
    ensures var s := EqualPiecesAsWritten([], name, count, len);
            && |s| == count
            && (forall k :: 0 <= k < count ==> s[k] == Cable(len, name + "-" + NatToString(k)))
  {
    var s := EqualPiecesAsWritten([], name, count, len);
    EqualPiecesAsWrittenAt([], name, count, len);
    forall k | 0 <= k < count
      ensures s[k] == Cable(len, name + "-" + NatToString(k))
    {
      ZFillSpec(NatToString(k), Digits(k));
    }
  }

  /**
   * Read as written, a fresh splitter never pads: every piece `k` of the
   * first call is named `name-k`, the extra piece included. The lengths are
   * those of NewPieces: `equal_length`, then `equal_length + 1` for the
   * extra piece.
   */
  lemma AsWrittenFreshNeverPads(cable: Cable, times: int)
    requires Validate(cable, times).Pass? && times + 1 <= cable.length
    ensures var p := ComputePlan(cable.length, times).value;
            var s := NewPiecesAsWritten([], cable.name, p);
            && |s| == p.totalSections
            && (forall k :: 0 <= k < |s| ==> s[k].name == cable.name + "-" + NatToString(k))
            && (forall k :: 0 <= k < |s| ==>
                  s[k].length == if k < p.equalSections then p.equalLength else p.equalLength + 1)
  {
    FreshPlanPiecesUnpadded(cable.name, ComputePlan(cable.length, times).value);
  }

  lemma FreshPlanPiecesUnpadded(name: string, p: Plan)
    requires p.equalSections >= 1
    requires p.totalSections == p.equalSections + (if p.remainder > 0 then 1 else 0)
    requires p.remainder >= 0
    ensures var s := NewPiecesAsWritten([], name, p);
            && |s| == p.totalSections
            && (forall k :: 0 <= k < |s| ==> s[k].name == name + "-" + NatToString(k))
            && (forall k :: 0 <= k < |s| ==>
                  s[k].length == if k < p.equalSections then p.equalLength else p.equalLength + 1)
  {
    if p.remainder != 0 {
      FreshExtraPieceUnpadded(name, p.equalSections, p.equalLength);
    } else {
      FreshEqualPiecesUnpadded(name, p.equalSections, p.equalLength);
    }
  }

  /** The extra piece, named when `result` holds the `n` equal pieces, is `name-n`. */
  lemma FreshExtraPieceUnpadded(name: string, n: nat, len: int)
    ensures var equalPart := EqualPiecesAsWritten([], name, n, len);
            var s := equalPart + [Cable(len + 1, FormatCableNameAsWritten(name, n, equalPart))];
            && |s| == n + 1
            && (forall k :: 0 <= k < |s| ==> s[k].name == name + "-" + NatToString(k))
            && (forall k :: 0 <= k < |s| ==> s[k].length == if k < n then len else len + 1)
  {
    var equalPart := EqualPiecesAsWritten([], name, n, len);
    var last := Cable(len + 1, FormatCableNameAsWritten(name, n, equalPart));
    var s := equalPart + [last];
    FreshEqualPiecesUnpadded(name, n, len);
    assert last.name == name + "-" + NatToString(n) by {
      ZFillSpec(NatToString(n), Digits(n));
    }
    forall k | 0 <= k < |s|
      ensures s[k].name == name + "-" + NatToString(k)
      ensures s[k].length == if k < n then len else len + 1
    {
      if k < n {
        assert s[k] == equalPart[k];
      }
    }
  }

  /**
   * The splitter object. `result` accumulates pieces over all calls; `length`
   * and `totalSections` hold the values of the last call. The unused fields
   * `longest_int` and `cable_count` are not modelled.
   */
  class Splitter {
    var result: seq<Cable>
    var length: int
    var totalSections: int

    constructor ()
      ensures result == [] && length == 0
    {
      result := [];
      length := 0;
    }

    /**
     * `split`: validates, computes the plan, then appends the pieces to
     * `result` and returns the whole of `result`, earlier calls' pieces
     * included. A rejected call changes nothing; a division by zero happens
     * after `length` was assigned, so only that field changes.
     */
    method Split(cable: Cable, times: int) returns (r: Result<seq<Cable>, SplitError>)
      modifies this
      ensures Validate(cable, times).Fail? ==>
                && r == Failure(Validate(cable, times).error)
                && result == old(result) && length == old(length) && totalSections == old(totalSections)
      ensures Validate(cable, times).Pass? && ComputePlan(cable.length, times).Failure? ==>
                && r == Failure(ZeroDivision)
                && result == old(result) && length == cable.length && totalSections == old(totalSections)
      ensures Validate(cable, times).Pass? && ComputePlan(cable.length, times).Success? ==>
                var p := ComputePlan(cable.length, times).value;
                && result == old(result) + NewPieces(cable.name, p)
                && r == Success(result)
                && length == cable.length
                && totalSections == p.totalSections
    {
      var v := Validate(cable, times);
      if v.Fail? {
        return Failure(v.error);
      }

      length := cable.length;
      var name := cable.name;

      // the two `divmod` steps and the piece count (lines 87-100); the second
      // `divmod` raises when `equal_length` is zero
      var planned := ComputePlan(length, times);
      if planned.Failure? {
        return Failure(ZeroDivision);
      }
      var plan := planned.value;

      // `tolal_sections` and `total_sections` are read as this one field
      totalSections := plan.totalSections;

      // `self.equal_sections`, `self.equal_length` and `self.remainder` are
      // read as the locals of the plan
      AppendEqualPieces(name, plan.equalSections, plan.equalLength);

      ghost var equalPart := EqualPieces(name, plan.equalSections, plan.equalLength, totalSections);
      if plan.remainder != 0 {
        var last := Cable(plan.equalLength + 1, FormatCableName(name, totalSections - 1, totalSections));
        result := result + [last];
        assert NewPieces(name, plan) == equalPart + [last];
      } else {
        assert NewPieces(name, plan) == equalPart + [];
      }

      return Success(result);
    }

    /**
     * The `for` loop of `split`: appends `count` pieces of length `len`,
     * named by their index padded to the width of `totalSections`.
     */
    method AppendEqualPieces(name: string, count: nat, len: int)
      requires totalSections >= 1
      modifies this`result
      ensures result == old(result) + EqualPieces(name, count, len, totalSections)
    {
      ghost var before := result;
      for i := 0 to count
        invariant result == before + EqualPieces(name, i, len, totalSections)
      {
        if i < count {
          result := result + [Cable(len, FormatCableName(name, i, totalSections))];
        } else {
          // the `equal_length + 1` branch inside the loop: i < equal_sections always holds here
          assert false;
        }
      }
    }

    /**
     * `split` with the pieces in a list local to the call: nothing of the
     * splitter changes, and the answer depends on this call's inputs only.
     */
    method SplitFresh(cable: Cable, times: int) returns (r: Result<seq<Cable>, SplitError>)
      ensures r == SplitPieces(cable, times)
    {
      var v := Validate(cable, times);
      if v.Fail? {
        return Failure(v.error);
      }
      var planned := ComputePlan(cable.length, times);
      if planned.Failure? {
        return Failure(ZeroDivision);
      }
      var pieces := BuildPieces(cable.name, planned.value);
      return Success(pieces);
    }
  }

  /**
   * The pieces of one call built in a local list: the `for` loop appends the
   * `equal_sections` equal pieces, named by their index padded to the width
   * of `total_sections`, then the extra piece when the remainder is not zero.
   */
  method BuildPieces(name: string, p: Plan) returns (pieces: seq<Cable>)
    requires p.equalSections >= 0 && p.totalSections >= 1
    ensures pieces == NewPieces(name, p)
  {
    pieces := [];
    for i := 0 to p.equalSections
      invariant pieces == EqualPieces(name, i, p.equalLength, p.totalSections)
    {
      pieces := pieces + [Cable(p.equalLength, FormatCableName(name, i, p.totalSections))];
    }
    ghost var equalPart := pieces;
    if p.remainder != 0 {
      var last := Cable(p.equalLength + 1, FormatCableName(name, p.totalSections - 1, p.totalSections));
      pieces := pieces + [last];
      assert NewPieces(name, p) == equalPart + [last];
    } else {
      assert NewPieces(name, p) == equalPart + [];
    }
  }

  /** On a fresh splitter, `split` returns exactly the pieces of its own input. */
  method SplitOnFreshSplitter(cable: Cable, times: int) returns (r: Result<seq<Cable>, SplitError>)
    ensures r == SplitPieces(cable, times)
  {
    var s := new Splitter();
    r := s.Split(cable, times);
    if Validate(cable, times).Pass? && ComputePlan(cable.length, times).Success? {
      var pieces := NewPieces(cable.name, ComputePlan(cable.length, times).value);
      assert [] + pieces == pieces;
    }
  }
}
