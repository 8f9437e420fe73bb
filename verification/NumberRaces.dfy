/** Credit notes that are issued at the same time: `next_customer_invoice_number` reads the counter without a lock,
    and the note is stored, with the counter set to one more than was read, when the transaction commits. */
module NumberRaces {
  import opened CreditNotes

  /** A prefix and a numeral; the text of a number determines both. */
  datatype Number = Number(prefix: string, numeral: nat)

  function TextOf(n: Number): string {
    NumberText(n.prefix, n.numeral)
  }

  /** The profile of one customer, its notes oldest first, the numbers of other customers, and the numbers that have
      been formed and not yet stored. */
  datatype Desk = Desk(prefix: string, next: nat, issued: seq<Number>, others: set<string>, reserved: seq<Number>)

  datatype Move =
    | ChangePrefix(prefix: string)
    | OthersStore(number: string)
    | Reserve
    | Store(k: nat)
    | Abandon(k: nat)

  function EffectivePrefix(d: Desk): string {
    if d.prefix != "" then d.prefix else "CN"
  }

  predicate TakenByOthers(d: Desk, n: Number) {
    TextOf(n) in d.others
  }

  /** The unique column holds the text among the customer's own notes. */
  predicate TakenByItself(d: Desk, n: Number) {
    exists i | 0 <= i < |d.issued| :: TextOf(d.issued[i]) == TextOf(n)
  }

  function Without(s: seq<Number>, k: nat): seq<Number>
    requires k < |s|
  {
    s[..k] + s[k + 1..]
  }

  /** One move. A refused note takes its counter with it: the transaction is rolled back. */
  function Next(d: Desk, move: Move): Desk {
    match move
    case ChangePrefix(p) => d.(prefix := p)
    case OthersStore(number) =>
      if exists i | 0 <= i < |d.issued| :: TextOf(d.issued[i]) == number then d
      else d.(others := d.others + {number})
    case Reserve => d.(reserved := d.reserved + [Number(EffectivePrefix(d), d.next)])
    case Store(k) =>
      if k >= |d.reserved| then d
      else
        var n := d.reserved[k];
        var rest := Without(d.reserved, k);
        if TakenByOthers(d, n) || TakenByItself(d, n) then d.(reserved := rest)
        else d.(next := n.numeral + 1, issued := d.issued + [n], reserved := rest)
    case Abandon(k) => if k >= |d.reserved| then d else d.(reserved := Without(d.reserved, k))
  }

  function Run(d: Desk, moves: seq<Move>): Desk {
    if moves == [] then d else Next(Run(d, moves[..|moves| - 1]), moves[|moves| - 1])
  }

  /** In any state a customer collides with itself exactly when it has a note of the same prefix and numeral. */
  lemma CollidesExactlyWithSameNumber(d: Desk, n: Number)
    ensures TakenByItself(d, n) <==> n in d.issued
  {
    forall i | 0 <= i < |d.issued| ensures TextOf(d.issued[i]) == TextOf(n) <==> d.issued[i] == n {
      NumberTextIsInjective(d.issued[i].prefix, d.issued[i].numeral, n.prefix, n.numeral);
    }
  }

  ghost predicate Distinct(issued: seq<Number>) {
    forall i, j | 0 <= i < j < |issued| :: TextOf(issued[i]) != TextOf(issued[j])
  }

  /** Over every interleaving, prefix edits included, the stored numbers stay pairwise distinct. */
  lemma {:induction false} NumbersStayDistinct(d: Desk, moves: seq<Move>)
    requires Distinct(d.issued)
    ensures Distinct(Run(d, moves).issued)
  {
    if moves != [] {
      NumbersStayDistinct(d, moves[..|moves| - 1]);
    }
  }

  // ---------------------------------------------------------------- with one prefix

  /** The notes are numbered first, first + 1, ... under the current prefix, and every reservation is of a number
      that is taken or the next one. */
  ghost predicate Steady(d: Desk, first: nat) {
    && d.next == first + |d.issued|
    && (forall i | 0 <= i < |d.issued| :: d.issued[i] == Number(EffectivePrefix(d), first + i))
    && (forall k | 0 <= k < |d.reserved| ::
          d.reserved[k].prefix == EffectivePrefix(d) && first <= d.reserved[k].numeral <= d.next)
  }

  /** Another note of the customer has been stored since the number was formed. */
  predicate IsOvertaken(d: Desk, k: nat)
    requires k < |d.reserved|
  {
    d.reserved[k].numeral != d.next
  }

  /** With one prefix a customer collides with itself if and only if another of its notes has been stored since the
      number was formed. */
  lemma CollidesExactlyWhenOvertaken(d: Desk, first: nat, k: nat)
    requires Steady(d, first) && k < |d.reserved|
    ensures TakenByItself(d, d.reserved[k]) <==> IsOvertaken(d, k)
  {
    var n := d.reserved[k];
    CollidesExactlyWithSameNumber(d, n);
    if n.numeral < d.next {
      assert d.issued[n.numeral - first] == n;
    }
  }

  lemma MoveKeepsSteady(d: Desk, move: Move, first: nat)
    requires Steady(d, first) && !move.ChangePrefix?
    ensures Steady(Next(d, move), first)
  {
    if (move.Store? || move.Abandon?) && move.k < |d.reserved| {
      forall j | 0 <= j < |d.reserved| - 1
        ensures Without(d.reserved, move.k)[j] == d.reserved[if j < move.k then j else j + 1]
      {
      }
      if move.Store? {
        CollidesExactlyWhenOvertaken(d, first, move.k);
      }
    }
  }

  lemma {:induction false} RunStaysSteady(d: Desk, moves: seq<Move>, first: nat)
    requires Steady(d, first) && forall i | 0 <= i < |moves| :: !moves[i].ChangePrefix?
    ensures Steady(Run(d, moves), first)
  {
    if moves != [] {
      RunStaysSteady(d, moves[..|moves| - 1], first);
      MoveKeepsSteady(Run(d, moves[..|moves| - 1]), moves[|moves| - 1], first);
    }
  }

  /** Over every interleaving without prefix edits the numbers stay gap-free, and a note is refused if and only if
      another customer holds the number or another note of the customer has been stored since the number was formed. */
  lemma RefusedExactlyWhenOvertaken(d: Desk, moves: seq<Move>, k: nat)
    requires d.issued == [] && d.reserved == [] && forall i | 0 <= i < |moves| :: !moves[i].ChangePrefix?
    requires k < |Run(d, moves).reserved|
    ensures Steady(Run(d, moves), d.next)
    ensures var r := Run(d, moves);
            Next(r, Store(k)).issued == r.issued <==> TakenByOthers(r, r.reserved[k]) || IsOvertaken(r, k)
  {
    RunStaysSteady(d, moves, d.next);
    CollidesExactlyWhenOvertaken(Run(d, moves), d.next, k);
  }

  // ---------------------------------------------------------------- with a prefix edit in between

  /** A number formed before a prefix edit and stored after later notes is not refused: it sets the counter back,
      and from then on every note under the new prefix is refused, however often it is tried. */
  lemma StaleNumberBlocksTheCounter(d: Desk, p: string, q: string, tries: nat)
    requires d.issued == [] && d.reserved == [] && d.others == {} && d.prefix == p && p != "" && q != "" && p != q
    ensures var moves := [Reserve, ChangePrefix(q), Reserve, Store(1), Reserve, Store(1), Store(0)];
            var r := Run(d, moves);
            && r.issued == [Number(q, d.next), Number(q, d.next + 1), Number(p, d.next)] && r.next == d.next + 1
            && r.reserved == [] && Retried(r, tries) == r
  {
    SevenMoves(d, p, q);
    var r := Run(d, [Reserve, ChangePrefix(q), Reserve, Store(1), Reserve, Store(1), Store(0)]);
    RetriesAreRefused(r, q, tries);
  }

  /** Issue again and again. */
  function Retried(d: Desk, tries: nat): Desk {
    if tries == 0 then d else Next(Next(Retried(d, tries - 1), Reserve), Store(0))
  }

  lemma {:induction false} RetriesAreRefused(d: Desk, q: string, tries: nat)
    requires d.reserved == [] && EffectivePrefix(d) == q && Number(q, d.next) in d.issued
    ensures Retried(d, tries) == d
  {
    if tries > 0 {
      RetriesAreRefused(d, q, tries - 1);
      CollidesExactlyWithSameNumber(Next(d, Reserve), Number(q, d.next));
    }
  }

  lemma StoresFresh(d: Desk, k: nat)
    requires k < |d.reserved| && d.others == {} && d.reserved[k] !in d.issued
    ensures Next(d, Store(k)) ==
            d.(next := d.reserved[k].numeral + 1, issued := d.issued + [d.reserved[k]],
               reserved := Without(d.reserved, k))
  {
    CollidesExactlyWithSameNumber(d, d.reserved[k]);
  }

  lemma SevenMoves(d: Desk, p: string, q: string)
    requires d.issued == [] && d.reserved == [] && d.others == {} && d.prefix == p && p != "" && q != "" && p != q
    ensures Run(d, [Reserve, ChangePrefix(q), Reserve, Store(1), Reserve, Store(1), Store(0)]) ==
            Desk(q, d.next + 1, [Number(q, d.next), Number(q, d.next + 1), Number(p, d.next)], {}, [])
  {
    var n := d.next;
    var late, one, two := Number(p, n), Number(q, n), Number(q, n + 1);
    var busy := [Reserve, ChangePrefix(q), Reserve, Store(1), Reserve, Store(1)];
    TwoIssuesBehind(d, p, q);
    assert busy + [Store(0)] == [Reserve, ChangePrefix(q), Reserve, Store(1), Reserve, Store(1), Store(0)];
    RunThen(d, busy, Store(0));
    StoresFresh(Desk(q, n + 2, [one, two], {}, [late]), 0);
    assert [one, two] + [late] == [one, two, late] && Without([late], 0) == [];
  }

  lemma PrefixChangedBehind(d: Desk, p: string, q: string)
    requires d.issued == [] && d.reserved == [] && d.others == {} && d.prefix == p && p != ""
    ensures Run(d, [Reserve, ChangePrefix(q)]) == Desk(q, d.next, [], {}, [Number(p, d.next)])
  {
    RunThen(d, [], Reserve);
    RunThen(d, [Reserve], ChangePrefix(q));
    assert [] + [Reserve] == [Reserve] && [Reserve] + [ChangePrefix(q)] == [Reserve, ChangePrefix(q)];
  }

  lemma TwoIssuesBehind(d: Desk, p: string, q: string)
    requires d.issued == [] && d.reserved == [] && d.others == {} && d.prefix == p && p != "" && q != ""
    ensures Run(d, [Reserve, ChangePrefix(q), Reserve, Store(1), Reserve, Store(1)]) ==
            Desk(q, d.next + 2, [Number(q, d.next), Number(q, d.next + 1)], {}, [Number(p, d.next)])
  {
    var n := d.next;
    var late, one, two := Number(p, n), Number(q, n), Number(q, n + 1);
    var opening, issue := [Reserve, ChangePrefix(q)], [Reserve, Store(1)];
    PrefixChangedBehind(d, p, q);
    IssueBehind(d, opening, Desk(q, n, [], {}, [late]), late);
    assert [] + [one] == [one];
    IssueBehind(d, opening + issue, Desk(q, n + 1, [one], {}, [late]), late);
    assert [one] + [two] == [one, two];
    assert opening + issue + issue == [Reserve, ChangePrefix(q), Reserve, Store(1), Reserve, Store(1)];
  }

  lemma RunThen(d: Desk, moves: seq<Move>, move: Move)
    ensures Run(d, moves + [move]) == Next(Run(d, moves), move)
  {
    assert (moves + [move])[..|moves|] == moves;
  }

  /** A note that is formed and stored at once while one reservation waits. */
  lemma IssueBehind(d: Desk, moves: seq<Move>, s: Desk, waiting: Number)
    requires Run(d, moves) == s && s.reserved == [waiting] && s.others == {} && s.prefix != ""
    requires Number(s.prefix, s.next) !in s.issued
    ensures Run(d, moves + [Reserve, Store(1)]) ==
            Desk(s.prefix, s.next + 1, s.issued + [Number(s.prefix, s.next)], {}, [waiting])
  {
    RunThen(d, moves, Reserve);
    RunThen(d, moves + [Reserve], Store(1));
    assert moves + [Reserve] + [Store(1)] == moves + [Reserve, Store(1)];
    StoresFresh(Next(s, Reserve), 1);
  }
}
