/** Credit-note numbering: `next_customer_invoice_number` and `issue_credit_note`. */
module CreditNotes {
  import opened Prelude
  import opened Text

  /** `f"{prefix}-{n:06d}"`. */
  function NumberText(prefix: string, n: nat): string {
    prefix + "-" + ZeroPad(Decimal(n), 6)
  }

  lemma PaddedDigits(n: nat)
    ensures var d := ZeroPad(Decimal(n), 6); AllDigits(d) && NumberOf(d) == n && '-' !in d
  {
    DecimalRoundTrip(n);
    ZeroPadKeepsNumber(Decimal(n), 6);
  }

  function Pow10(n: nat): nat {
    if n == 0 then 1 else 10 * Pow10(n - 1)
  }

  lemma {:induction false} DecimalLength(n: nat)
    ensures |Decimal(n)| >= 1 && n < Pow10(|Decimal(n)|)
    ensures |Decimal(n)| > 1 ==> n >= Pow10(|Decimal(n)| - 1)
  {
    if n >= 10 {
      DecimalLength(n / 10);
    }
  }

  lemma {:induction false} PaddedLength(s: string, width: nat)
    ensures |ZeroPad(s, width)| == if |s| >= width then |s| else width
    decreases width - |s|
  {
    if |s| < width {
      PaddedLength("0" + s, width);
    }
  }

  /** The numeral after the dash has six characters, or as many as the number has digits when these are more. */
  lemma NumeralIsSixWideOrMore(prefix: string, n: nat)
    ensures var text := NumberText(prefix, n);
            var width := |text| - |prefix| - 1;
            && |text| > |prefix| && text[..|prefix| + 1] == prefix + "-"
            && (n < 1000000 ==> width == 6)
            && (n >= 1000000 ==> width > 6 && Pow10(width - 1) <= n < Pow10(width))
  {
    DecimalLength(n);
    PaddedLength(Decimal(n), 6);
    assert NumberText(prefix, n) == (prefix + "-") + ZeroPad(Decimal(n), 6);
    assert Pow10(6) == 1000000;
    if |Decimal(n)| > 6 {
      Pow10Grows(6, |Decimal(n)| - 1);
    } else {
      Pow10Grows(|Decimal(n)|, 6);
    }
  }

  lemma {:induction false} Pow10Grows(m: nat, n: nat)
    requires m <= n
    ensures Pow10(m) <= Pow10(n)
  {
    if m < n {
      Pow10Grows(m, n - 1);
    }
  }

  /** Numbers are injective for every prefix, dashes and digits included, and for every n. */
  lemma NumberTextIsInjective(p: string, m: nat, q: string, n: nat)
    ensures NumberText(p, m) == NumberText(q, n) <==> p == q && m == n
  {
    PaddedDigits(m);
    PaddedDigits(n);
    if NumberText(p, m) == NumberText(q, n) {
      LastSeparator(p, ZeroPad(Decimal(m), 6), q, ZeroPad(Decimal(n), 6), '-');
    }
  }

  /** The billing profile of one customer, its own credit-note numbers, and the numbers held by other customers. */
  datatype Numbering = Numbering(prefix: string, next: nat, others: set<string>, issued: seq<string>)

  datatype Step =
    | EditPrefix(prefix: string)
    | Issue(fallback: string)
    | OtherCustomerIssues(number: string)

  function ActualPrefix(s: Numbering, fallback: string): string {
    if s.prefix != "" then s.prefix else fallback
  }

  /** One request. A number that is already taken violates the unique column and rolls the transaction back. */
  function Apply(s: Numbering, step: Step): Numbering {
    match step
    case EditPrefix(p) => s.(prefix := p)
    case OtherCustomerIssues(number) => if number in s.issued then s else s.(others := s.others + {number})
    case Issue(fallback) =>
      var number := NumberText(ActualPrefix(s, fallback), s.next);
      if number in s.others || number in s.issued then s
      else s.(next := s.next + 1, issued := s.issued + [number])
  }

  function Run(s: Numbering, steps: seq<Step>): Numbering {
    if steps == [] then s else Apply(Run(s, steps[..|steps| - 1]), steps[|steps| - 1])
  }

  /** `number` is some prefix followed by the padded numeral of n. */
  ghost predicate Numbered(number: string, n: nat) {
    exists prefix :: number == NumberText(prefix, n)
  }

  /** The k-th issued number carries the numeral first + k, and next is the numeral after the last one. */
  ghost predicate GapFree(s: Numbering, first: nat) {
    && s.next == first + |s.issued|
    && forall k | 0 <= k < |s.issued| :: Numbered(s.issued[k], first + k)
  }

  lemma {:induction false} RunIsGapFree(s: Numbering, steps: seq<Step>)
    requires s.issued == []
    ensures GapFree(Run(s, steps), s.next)
  {
    if steps != [] {
      var before := Run(s, steps[..|steps| - 1]);
      RunIsGapFree(s, steps[..|steps| - 1]);
      var after := Apply(before, steps[|steps| - 1]);
      if |after.issued| > |before.issued| {
        assert Numbered(after.issued[|before.issued|], s.next + |before.issued|);
      }
    }
  }

  /** Over every run, with prefix edits and other customers' notes in between, one customer's numbers are distinct
      and consecutive. */
  lemma IssuedNumbersDistinct(s: Numbering, steps: seq<Step>)
    requires s.issued == []
    ensures GapFree(Run(s, steps), s.next)
    ensures var issued := Run(s, steps).issued; forall j, k | 0 <= j < k < |issued| :: issued[j] != issued[k]
  {
    RunIsGapFree(s, steps);
    var issued := Run(s, steps).issued;
    forall j, k | 0 <= j < k < |issued| ensures issued[j] != issued[k] {
      assert Numbered(issued[j], s.next + j) && Numbered(issued[k], s.next + k);
      var p :| issued[j] == NumberText(p, s.next + j);
      var q :| issued[k] == NumberText(q, s.next + k);
      NumberTextIsInjective(p, s.next + j, q, s.next + k);
    }
  }

  /** A customer never collides with its own notes: an issue is refused exactly when another customer holds the
      number. */
  lemma RefusedExactlyByOthers(s: Numbering, steps: seq<Step>, fallback: string)
    requires s.issued == []
    ensures var now := Run(s, steps);
            Apply(now, Issue(fallback)) == now <==> NumberText(ActualPrefix(now, fallback), now.next) in now.others
  {
    RunIsGapFree(s, steps);
    var now := Run(s, steps);
    var number := NumberText(ActualPrefix(now, fallback), now.next);
    forall k | 0 <= k < |now.issued| ensures now.issued[k] != number {
      assert Numbered(now.issued[k], s.next + k);
      var p :| now.issued[k] == NumberText(p, s.next + k);
      NumberTextIsInjective(p, s.next + k, ActualPrefix(now, fallback), now.next);
    }
    assert number !in now.issued;
    assert Apply(now, Issue(fallback)).next == now.next <==> number in now.others;
  }

  /** The profile row together with the customer's credit notes, updated in place. */
  class BillingProfile {
    var invoicePrefix: string
    var nextInvoiceNumber: nat
    var otherNumbers: set<string>
    var issued: seq<string>

    ghost function State(): Numbering
      reads this
    {
      Numbering(invoicePrefix, nextInvoiceNumber, otherNumbers, issued)
    }

    constructor (prefix: string, others: set<string>)
      ensures State() == Numbering(prefix, 1, others, [])
    {
      invoicePrefix, nextInvoiceNumber, otherNumbers, issued := prefix, 1, others, [];
    }

    method NextCustomerInvoiceNumber(fallback: string) returns (number: string)
      modifies this`nextInvoiceNumber
      ensures number == NumberText(ActualPrefix(old(State()), fallback), old(nextInvoiceNumber))
      ensures nextInvoiceNumber == old(nextInvoiceNumber) + 1
    {
      var actualPrefix := if invoicePrefix != "" then invoicePrefix else fallback;
      number := actualPrefix + "-" + ZeroPad(Decimal(nextInvoiceNumber), 6);
      nextInvoiceNumber := nextInvoiceNumber + 1;
    }

    /** Atomic: on a number that is already taken the reservation is undone. */
    method IssueCreditNote() returns (r: Result<string, string>)
      modifies this
      ensures State() == Apply(old(State()), Issue("CN"))
      ensures r.Ok? <==> |issued| == |old(issued)| + 1
      ensures r.Ok? ==> issued == old(issued) + [r.value]
    {
      var savepoint := nextInvoiceNumber;
      var number := NextCustomerInvoiceNumber("CN");
      if number in otherNumbers || number in issued {
        nextInvoiceNumber := savepoint;
        return Raised("IntegrityError");
      }
      issued := issued + [number];
      r := Ok(number);
    }
  }
}
