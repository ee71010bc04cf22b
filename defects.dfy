/**
 * Three places where `split` does not do what its authors evidently meant,
 * each shown on a concrete input next to a corrected definition with the
 * intended property proved:
 *  - the extra piece is `equal_length + 1` long, so length is not conserved;
 *  - `result` is never cleared, so one call returns the pieces of earlier ones;
 *  - the padding width is taken from `len(self.result)`, which on a fresh
 *    splitter never pads.
 * Also a few concrete splits, worked out on the model.
 */
module SplitterDefects {
  import opened Results
  import opened Cables
  import opened Decimal
  import opened Splitting

  // ---- Length conservation ----

  /** As written: 10 units cut twice give pieces 3, 3, 3 and 4, 13 units in all. */
  lemma RemainderPieceOvershoots()
    ensures var r := SplitPieces(Cable(10, "A"), 2);
            && r.Success?
            && |r.value| == 4
            && r.value[0].length == 3 && r.value[1].length == 3 && r.value[2].length == 3
            && r.value[3].length == 4
            && TotalLength(r.value) == 13
  {
    var p := ComputePlan(10, 2).value;
    assert p == Plan(3, 1, 0, 1, 3, 4);
    PiecesShape(Cable(10, "A"), 2);
    PiecesTotal(Cable(10, "A"), 2);
  }

  /**
   * The intended partition: the `equal_sections` sections of the plan, the
   * last of which absorbs the second remainder, so their lengths add up to
   * the cable's.
   */
  function ConservingPieces(name: string, p: Plan): seq<Cable>
    requires p.equalSections >= 1
  {
    EqualPieces(name, p.equalSections - 1, p.equalLength, p.equalSections)
      + [Cable(p.equalLength + p.remainder, FormatCableName(name, p.equalSections - 1, p.equalSections))]
  }

  /** The corrected split: validation and the plan as in the source, pieces conserving length. */
  function ConservingSplit(cable: Cable, times: int): Result<seq<Cable>, SplitError>
  {
    match Validate(cable, times)
    case Fail(e) => Failure(e)
    case Pass =>
      match ComputePlan(cable.length, times)
      case Failure(e) => Failure(e)
      case Success(p) => Success(ConservingPieces(cable.name, p))
  }

  /**
   * The corrected split conserves length, yields at least `times + 1` pieces
   * named by their position, and every piece is `equal_length` long except the
   * last, which is `equal_length + remainder` long.
   */
  lemma ConservingSplitCorrect(cable: Cable, times: int)
    requires Validate(cable, times).Pass? && times + 1 <= cable.length
    ensures var p := ComputePlan(cable.length, times).value;
            var r := ConservingSplit(cable, times);
            && r.Success?
            && TotalLength(r.value) == cable.length
            && |r.value| == p.equalSections >= times + 1
            && (forall k :: 0 <= k < |r.value| - 1 ==> r.value[k].length == p.equalLength >= 1)
            && r.value[|r.value| - 1].length == p.equalLength + p.remainder
            && (forall k :: 0 <= k < |r.value| ==> r.value[k].name == FormatCableName(cable.name, k, |r.value|))
  {
    var p := ComputePlan(cable.length, times).value;
    ConservingPiecesAt(cable.name, p);
    ConservingPiecesSum(cable.name, p);
    PlanDivMod(cable.length, times);
  }

  /** The corrected pieces add up to the equal sections plus the second remainder. */
  lemma ConservingPiecesSum(name: string, p: Plan)
    requires p.equalSections >= 1
    ensures TotalLength(ConservingPieces(name, p)) == p.equalSections * p.equalLength + p.remainder
  {
    var n := p.equalSections;
    var eq := EqualPieces(name, n - 1, p.equalLength, n);
    var last := Cable(p.equalLength + p.remainder, FormatCableName(name, n - 1, n));
    EqualPiecesTotal(name, n - 1, p.equalLength, n);
    TotalLengthSnocUniform(eq, last, n - 1, p.equalLength, p.remainder);
  }

  lemma ConservingPiecesAt(name: string, p: Plan)
    requires p.equalSections >= 1
    ensures var s := ConservingPieces(name, p);
            && |s| == p.equalSections
            && (forall k :: 0 <= k < |s| - 1 ==> s[k].length == p.equalLength)
            && s[|s| - 1].length == p.equalLength + p.remainder
            && (forall k :: 0 <= k < |s| ==> s[k].name == FormatCableName(name, k, |s|))
  {
    var n := p.equalSections;
    var eq := EqualPieces(name, n - 1, p.equalLength, n);
    var s := ConservingPieces(name, p);
    EqualPiecesAt(name, n - 1, p.equalLength, n);
    forall k | 0 <= k < n
      ensures s[k].name == FormatCableName(name, k, n)
      ensures k < n - 1 ==> s[k].length == p.equalLength
    {
      if k < n - 1 {
        assert s[k] == eq[k];
      }
    }
  }

  /** Corrected: 10 units cut twice give 3, 3 and 4, which add up to 10. */
  lemma ConservingExample()
    ensures var r := ConservingSplit(Cable(10, "A"), 2);
            && r.Success?
            && |r.value| == 3
            && r.value[0].length == 3 && r.value[1].length == 3 && r.value[2].length == 4
            && TotalLength(r.value) == 10
  {
    assert ComputePlan(10, 2).value == Plan(3, 1, 0, 1, 3, 4);
    ConservingSplitCorrect(Cable(10, "A"), 2);
  }

  // ---- Results leaking between calls ----

  /** As written: a second call on the same splitter returns the first call's pieces too. */
  method ReuseLeaks() returns (first: seq<Cable>, second: seq<Cable>)
    ensures |first| == 2 && |second| == 6
    ensures second[..2] == first
  {
    var s := new Splitter();
    assert ComputePlan(10, 1).value.totalSections == 2;
    assert ComputePlan(10, 2).value.totalSections == 4;
    PieceCount(Cable(10, "A"), 1);
    PieceCount(Cable(10, "B"), 2);
    var r1 := s.Split(Cable(10, "A"), 1);
    first := r1.value;
    var r2 := s.Split(Cable(10, "B"), 2);
    second := r2.value;
  }

  /**
   * Corrected: on the same splitter, the second call returns exactly what
   * its own input gives, none of the first call's pieces.
   */
  method ReuseIsolated() returns (first: seq<Cable>, second: seq<Cable>)
    ensures |first| == 2 && |second| == 4
    ensures Success(second) == SplitPieces(Cable(10, "B"), 2)
  {
    var s := new Splitter();
    assert ComputePlan(10, 1).value.totalSections == 2;
    assert ComputePlan(10, 2).value.totalSections == 4;
    PieceCount(Cable(10, "A"), 1);
    PieceCount(Cable(10, "B"), 2);
    var r1 := s.SplitFresh(Cable(10, "A"), 1);
    first := r1.value;
    var r2 := s.SplitFresh(Cable(10, "B"), 2);
    second := r2.value;
  }

  // ---- Padding width ----

  /**
   * As written, ten pieces from a fresh splitter: the first name is made when
   * `result` is empty, so it is "A-0"; padding to the piece count gives "A-00".
   */
  lemma AsWrittenPaddingExample()
    ensures var p := ComputePlan(10, 9).value;
            && NewPiecesAsWritten([], "A", p)[0].name == "A-0"
            && NewPieces("A", p)[0].name == "A-00"
  {
    var p := ComputePlan(10, 9).value;
    assert p == Plan(1, 0, 0, 0, 10, 10);
    AsWrittenFreshNeverPads(Cable(10, "A"), 9);
    PiecesShape(Cable(10, "A"), 9);
    assert NatToString(0) == "0";
    assert NatToString(10) == NatToString(1) + "0" == "10";
    assert Zeros(1) == "0";
  }

  /** Ten pieces are named "A-00" to "A-09". */
  lemma TenPiecesExample()
    ensures var r := SplitPieces(Cable(10, "A"), 9);
            r.Success? && |r.value| == 10 && r.value[0].name == "A-00" && r.value[9].name == "A-09"
  {
    assert NatToString(0) == "0" && NatToString(9) == "9";
    assert NatToString(10) == NatToString(1) + "0" == "10";
    assert Zeros(1) == "0";
    assert FormatCableName("A", 0, 10) == "A-00" && FormatCableName("A", 9, 10) == "A-09";
    assert ComputePlan(10, 9).value == Plan(1, 0, 0, 0, 10, 10);
    PiecesShape(Cable(10, "A"), 9);
  }

  // ---- Concrete splits ----

  /** 10 units cut once: two pieces of 5, named "A-0" and "A-1". */
  lemma ExactDivisionExample()
    ensures SplitPieces(Cable(10, "A"), 1) == Success([Cable(5, "A-0"), Cable(5, "A-1")])
  {
    assert ComputePlan(10, 1).value == Plan(5, 0, 0, 0, 2, 2);
    PiecesShape(Cable(10, "A"), 1);
    var s := SplitPieces(Cable(10, "A"), 1).value;
    assert FormatCableName("A", 0, 2) == "A-0" && FormatCableName("A", 1, 2) == "A-1";
    assert s == [s[0], s[1]];
  }

  /** Twelve pieces are named "A-00" to "A-11". */
  lemma TwelvePiecesExample()
    ensures var r := SplitPieces(Cable(12, "A"), 11);
            r.Success? && |r.value| == 12 && r.value[0].name == "A-00" && r.value[11].name == "A-11"
  {
    assert NatToString(0) == "0";
    assert NatToString(12) == NatToString(1) + "2" == "12";
    assert NatToString(11) == NatToString(1) + "1" == "11";
    assert Zeros(1) == "0";
    assert FormatCableName("A", 0, 12) == "A-00" && FormatCableName("A", 11, 12) == "A-11";
    assert ComputePlan(12, 11).value == Plan(1, 0, 0, 0, 12, 12);
    PiecesShape(Cable(12, "A"), 11);
  }

  /**
   * The edges of the accepted range: the shortest cable cut once is two
   * pieces of 1; the longest cable cut the most times divides by zero; one
   * step outside either range is rejected, the cut count first.
   */
  lemma BoundaryExamples()
    ensures SplitPieces(Cable(2, "A"), 1) == Success([Cable(1, "A-0"), Cable(1, "A-1")])
    ensures SplitPieces(Cable(1024, "A"), 1024) == Failure(ZeroDivision)
    ensures SplitPieces(Cable(10, "A"), 0) == Failure(TimesOutOfRange)
    ensures SplitPieces(Cable(10, "A"), 1025) == Failure(TimesOutOfRange)
    ensures SplitPieces(Cable(1, "A"), 1) == Failure(LengthOutOfRange)
    ensures SplitPieces(Cable(1025, "A"), 1) == Failure(LengthOutOfRange)
    ensures SplitPieces(Cable(1, "A"), 0) == Failure(TimesOutOfRange)
  {
    assert ComputePlan(2, 1).value == Plan(1, 0, 0, 0, 2, 2);
    PiecesShape(Cable(2, "A"), 1);
    var s := SplitPieces(Cable(2, "A"), 1).value;
    assert FormatCableName("A", 0, 2) == "A-0" && FormatCableName("A", 1, 2) == "A-1";
    assert s == [s[0], s[1]];
  }
}
