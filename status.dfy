/**
 * The four probe outcomes of class `Status`, the comma-joined status text
 * and the verdict `print_lb_status` draws from it.
 */
module Status {
  import opened Text

  /** One probe outcome: a TCP connect (L4) or an HTTP GET (L7) that passed or failed. */
  datatype Code = L4Pass | L7Pass | L4Failed | L7Failed

  /** The status string the source uses for each outcome. */
  function CodeText(c: Code): string {
    match c
    case L4Pass => "L4:P"
    case L7Pass => "L7:P"
    case L4Failed => "L4:F"
    case L7Failed => "L7:F"
  }

  /** Every status string is four characters without a comma, and different outcomes have different strings. */
  lemma CodeTextShape(c: Code, d: Code)
    ensures |CodeText(c)| == 4 && ',' !in CodeText(c)
    ensures CodeText(c) == CodeText(d) ==> c == d
  {
    if CodeText(c) == CodeText(d) {
      assert CodeText(c)[1] == CodeText(d)[1] && CodeText(c)[3] == CodeText(d)[3];
    }
  }

  /** The status strings of a status list, in order. */
  function Texts(status: seq<Code>): (r: seq<string>)
    ensures |r| == |status|
    ensures forall k :: 0 <= k < |status| ==> r[k] == CodeText(status[k])
  {
    seq(|status|, k requires 0 <= k < |status| => CodeText(status[k]))
  }

  /** `",".join(status)`. */
  function Format(status: seq<Code>): string {
    Join(Texts(status), ',')
  }

  /** The text `print_lb_status` compares: "passing" exactly for `L4:P` and `L4:P,L7:P`. */
  predicate IsPassing(status: seq<Code>) {
    var text := Format(status);
    "L4:P,L7:P" == text || "L4:P" == text
  }

  /** A rendered status column: green "passing", or the joined codes in the warning colour. */
  datatype Cell = Cell(passing: bool, text: string)

  /** The status column `print_lb_status` writes for a status list. */
  function StatusCell(status: seq<Code>): Cell {
    if IsPassing(status) then Cell(true, "passing") else Cell(false, Format(status))
  }

  /** A non-empty status list joins to at least one four-character code. */
  lemma {:induction false} FormatLength(status: seq<Code>)
    ensures |Format(status)| == if status == [] then 0 else 5 * |status| - 1
  {
    var texts := Texts(status);
    if |status| > 1 {
      FormatLength(status[1..]);
      assert Texts(status[1..]) == texts[1..];
      CodeTextShape(status[0], status[0]);
    } else if |status| == 1 {
      CodeTextShape(status[0], status[0]);
    }
  }

  /** The joined text determines the status list: no two lists are displayed alike. */
  lemma FormatInjective(a: seq<Code>, b: seq<Code>)
    requires Format(a) == Format(b)
    ensures a == b
  {
    FormatLength(a);
    FormatLength(b);
    if a != [] && b != [] {
      var ta, tb := Texts(a), Texts(b);
      forall k | 0 <= k < |ta| ensures ',' !in ta[k] {
        CodeTextShape(a[k], a[k]);
      }
      forall k | 0 <= k < |tb| ensures ',' !in tb[k] {
        CodeTextShape(b[k], b[k]);
      }
      SplitJoin(ta, ',');
      SplitJoin(tb, ',');
      assert ta == tb;
      forall k | 0 <= k < |a| ensures a[k] == b[k] {
        CodeTextShape(a[k], b[k]);
      }
    }
  }

  lemma PassingTexts()
    ensures Format([L4Pass]) == "L4:P"
    ensures Format([L4Pass, L7Pass]) == "L4:P,L7:P"
  {
    assert Texts([L4Pass, L7Pass]) == ["L4:P", "L7:P"];
  }

  /**
   * The verdict is "passing" exactly for the lists `[L4:P]` and `[L4:P, L7:P]`,
   * whatever list it is given.
   */
  lemma PassingExactly(status: seq<Code>)
    ensures IsPassing(status) <==> status == [L4Pass] || status == [L4Pass, L7Pass]
  {
    PassingTexts();
    if Format(status) == "L4:P" {
      FormatInjective(status, [L4Pass]);
    }
    if Format(status) == "L4:P,L7:P" {
      FormatInjective(status, [L4Pass, L7Pass]);
    }
  }

  /** Both passing lists render as "passing". */
  lemma PassingExamples()
    ensures StatusCell([L4Pass]) == Cell(true, "passing")
    ensures StatusCell([L4Pass, L7Pass]) == Cell(true, "passing")
  {
    PassingTexts();
  }

  /** Every other list renders as its joined codes. */
  lemma FailingCell(status: seq<Code>)
    requires status != [L4Pass] && status != [L4Pass, L7Pass]
    ensures StatusCell(status) == Cell(false, Format(status))
  {
    PassingExactly(status);
  }

  lemma FailingTexts()
    ensures Format([L4Failed]) == "L4:F"
    ensures Format([L4Pass, L7Failed]) == "L4:P,L7:F"
    ensures Format([L4Failed, L7Pass]) == "L4:F,L7:P"
    ensures Format([L4Failed, L7Failed]) == "L4:F,L7:F"
  {
    assert Texts([L4Pass, L7Failed]) == ["L4:P", "L7:F"];
    assert Texts([L4Failed, L7Pass]) == ["L4:F", "L7:P"];
    assert Texts([L4Failed, L7Failed]) == ["L4:F", "L7:F"];
  }

  /** The failing classifications: the label is the joined codes, including `L4:F,L7:P`. */
  lemma FailingExamples()
    ensures StatusCell([L4Failed]) == Cell(false, "L4:F")
    ensures StatusCell([L4Pass, L7Failed]) == Cell(false, "L4:P,L7:F")
    ensures StatusCell([L4Failed, L7Pass]) == Cell(false, "L4:F,L7:P")
    ensures StatusCell([L4Failed, L7Failed]) == Cell(false, "L4:F,L7:F")
  {
    FailingTexts();
    FailingCell([L4Failed]);
    FailingCell([L4Pass, L7Failed]);
    FailingCell([L4Failed, L7Pass]);
    FailingCell([L4Failed, L7Failed]);
  }

  /** The empty string passed for the frontend status of a follow-on row renders as an empty warning cell. */
  lemma EmptyStatusCell()
    ensures StatusCell([]) == Cell(false, "")
  {
  }
}
