/** Strings as the services use them: decimal numerals, white-space tokens, separators, and sorting. */
module Text {
  import opened Prelude

  // ---------------------------------------------------------------- decimal numerals

  predicate IsDigit(c: char) {
    '0' <= c <= '9'
  }

  predicate AllDigits(s: string) {
    forall i | 0 <= i < |s| :: IsDigit(s[i])
  }

  function Digit(d: nat): char
    requires d < 10
  {
    ('0' as int + d) as char
  }

  /** Decimal text of a natural number, as `str(n)`. */
  function Decimal(n: nat): string {
    if n < 10 then [Digit(n)] else Decimal(n / 10) + [Digit(n % 10)]
  }

  /** The number a string of digits denotes, as `int(s)`. */
  function NumberOf(s: string): nat
    requires AllDigits(s)
  {
    if s == "" then 0 else 10 * NumberOf(s[..|s| - 1]) + (s[|s| - 1] as int - '0' as int)
  }

  /** Left padding with zeros, the `06d` of a format string. */
  function ZeroPad(s: string, width: nat): string
    decreases width - |s|
  {
    if |s| >= width then s else ZeroPad("0" + s, width)
  }

  lemma {:induction false} DecimalRoundTrip(n: nat)
    ensures AllDigits(Decimal(n)) && |Decimal(n)| >= 1 && NumberOf(Decimal(n)) == n
  {
    if n >= 10 {
      DecimalRoundTrip(n / 10);
      assert Decimal(n)[..|Decimal(n)| - 1] == Decimal(n / 10);
    }
  }

  lemma {:induction false} LeadingZero(s: string)
    requires AllDigits(s)
    ensures AllDigits("0" + s) && NumberOf("0" + s) == NumberOf(s)
  {
    if s != "" {
      LeadingZero(s[..|s| - 1]);
      assert ("0" + s)[..|s|] == "0" + s[..|s| - 1];
    }
  }

  lemma {:induction false} ZeroPadKeepsNumber(s: string, width: nat)
    requires AllDigits(s)
    ensures AllDigits(ZeroPad(s, width)) && NumberOf(ZeroPad(s, width)) == NumberOf(s)
    ensures |ZeroPad(s, width)| == Max(|s|, width)
    decreases width - |s|
  {
    if |s| < width {
      LeadingZero(s);
      ZeroPadKeepsNumber("0" + s, width);
    }
  }

  // ---------------------------------------------------------------- separators

  lemma SeparatorPositions(a: string, b: string, sep: char)
    ensures var s := a + [sep] + b; |s| == |a| + 1 + |b| && s[|a|] == sep
    ensures var s := a + [sep] + b;
            && (sep !in b ==> forall i | |a| < i < |s| :: s[i] != sep)
            && (sep !in a ==> forall i | 0 <= i < |a| :: s[i] != sep)
            && s[..|a|] == a && s[|a| + 1..] == b
  {
  }

  /** A string cut at its last separator is cut in one way only. */
  lemma LastSeparator(a: string, b: string, c: string, d: string, sep: char)
    requires a + [sep] + b == c + [sep] + d
    requires sep !in b && sep !in d
    ensures a == c && b == d
  {
    SeparatorPositions(a, b, sep);
    SeparatorPositions(c, d, sep);
  }

  /** A string cut at its first separator is cut in one way only. */
  lemma FirstSeparator(a: string, b: string, c: string, d: string, sep: char)
    requires a + [sep] + b == c + [sep] + d
    requires sep !in a && sep !in c
    ensures a == c && b == d
  {
    SeparatorPositions(a, b, sep);
    SeparatorPositions(c, d, sep);
  }

  // ---------------------------------------------------------------- white space and tokens

  /** The characters that `str.split()` and `str.strip()` treat as white space. */
  predicate IsSpace(c: char) {
    || '\t' <= c <= '\r'
    || '\U{1C}' <= c <= ' '
    || c == '\U{85}' || c == '\U{A0}' || c == '\U{1680}'
    || '\U{2000}' <= c <= '\U{200A}'
    || c == '\U{2028}' || c == '\U{2029}' || c == '\U{202F}' || c == '\U{205F}' || c == '\U{3000}'
  }

  predicate IsWord(t: string) {
    t != "" && forall i | 0 <= i < |t| :: !IsSpace(t[i])
  }

  predicate AllWords(ts: seq<string>) {
    forall t | t in ts :: IsWord(t)
  }

  /** Length of the run of non-space characters at the front of `s`. */
  function WordLength(s: string): (n: nat)
    ensures n <= |s|
    ensures forall i | 0 <= i < n :: !IsSpace(s[i])
    ensures n < |s| ==> IsSpace(s[n])
  {
    if s == "" || IsSpace(s[0]) then 0 else 1 + WordLength(s[1..])
  }

  /** `s.split()`. */
  function Split(s: string): seq<string>
    decreases |s|
  {
    if s == "" then []
    else if IsSpace(s[0]) then Split(s[1..])
    else [s[..WordLength(s)]] + Split(s[WordLength(s)..])
  }

  /** `" ".join(ts)`. */
  function Join(ts: seq<string>): string {
    if ts == [] then "" else if |ts| == 1 then ts[0] else ts[0] + " " + Join(ts[1..])
  }

  lemma {:induction false} SplitGivesWords(s: string)
    ensures AllWords(Split(s))
    decreases |s|
  {
    if s == "" {
    } else if IsSpace(s[0]) {
      SplitGivesWords(s[1..]);
    } else {
      SplitGivesWords(s[WordLength(s)..]);
    }
  }

  lemma {:induction false} WordLengthAtBreak(w: string, rest: string)
    requires forall i | 0 <= i < |w| :: !IsSpace(w[i])
    requires rest == "" || IsSpace(rest[0])
    ensures WordLength(w + rest) == |w|
  {
    if w != "" {
      assert (w + rest)[1..] == w[1..] + rest;
      WordLengthAtBreak(w[1..], rest);
    } else {
      assert w + rest == rest;
    }
  }

  /** Splitting a joined list of words gives the list back. */
  lemma {:induction false} SplitJoin(ts: seq<string>)
    requires AllWords(ts)
    ensures Split(Join(ts)) == ts
  {
    if ts == [] {
    } else {
      var rest := if |ts| == 1 then "" else " " + Join(ts[1..]);
      var s := ts[0] + rest;
      assert Join(ts) == s;
      assert IsWord(ts[0]);
      WordLengthAtBreak(ts[0], rest);
      assert s[0] == ts[0][0] && s[..|ts[0]|] == ts[0] && s[|ts[0]|..] == rest;
      if |ts| > 1 {
        SplitJoin(ts[1..]);
        assert rest[1..] == Join(ts[1..]);
      }
    }
  }

  function StripLeft(s: string): string {
    if s == "" || !IsSpace(s[0]) then s else StripLeft(s[1..])
  }

  function StripRight(s: string): string {
    if s == "" || !IsSpace(s[|s| - 1]) then s else StripRight(s[..|s| - 1])
  }

  /** `s.strip()`. */
  function Strip(s: string): string {
    StripRight(StripLeft(s))
  }

  predicate Trimmed(s: string) {
    s == "" || (!IsSpace(s[0]) && !IsSpace(s[|s| - 1]))
  }

  lemma {:induction false} StripRightTrims(s: string)
    requires s == "" || !IsSpace(s[0])
    ensures Trimmed(StripRight(s))
  {
    if s != "" && IsSpace(s[|s| - 1]) {
      StripRightTrims(s[..|s| - 1]);
    }
  }

  lemma {:induction false} StripTrims(s: string)
    ensures Trimmed(Strip(s))
    ensures Trimmed(s) ==> Strip(s) == s
  {
    if s == "" || !IsSpace(s[0]) {
      StripRightTrims(s);
    } else {
      StripTrims(s[1..]);
    }
  }

  /** `int(text)`: optional sign and decimal digits between white space; None is a ValueError. */
  function ParseInt(text: string): Option<int> {
    var s := Strip(text);
    if s != "" && AllDigits(s) then Some(NumberOf(s))
    else if |s| > 1 && AllDigits(s[1..]) && s[0] == '-' then Some(-(NumberOf(s[1..]) as int))
    else if |s| > 1 && AllDigits(s[1..]) && s[0] == '+' then Some(NumberOf(s[1..]))
    else None
  }

  // ---------------------------------------------------------------- sorting

  /** Code-point order of strings. */
  predicate Below(a: string, b: string) {
    if b == "" then false
    else if a == "" then true
    else a[0] < b[0] || (a[0] == b[0] && Below(a[1..], b[1..]))
  }

  lemma {:induction false} BelowIsStrictOrder(a: string, b: string, c: string)
    ensures !Below(a, a)
    ensures Below(a, b) || Below(b, a) || a == b
    ensures Below(a, b) && Below(b, c) ==> Below(a, c)
    decreases |a|
  {
    if a != "" {
      BelowIsStrictOrder(a[1..], if b == "" then b else b[1..], if c == "" then c else c[1..]);
      if b != "" && a[0] == b[0] && a[1..] == b[1..] {
        assert a == [a[0]] + a[1..] && b == [b[0]] + b[1..];
      }
    }
  }

  /** The strings agree on their first k characters and differ at the next, where a's comes first or a has ended. */
  predicate DiffersFirstAt(a: string, b: string, k: nat) {
    && k <= |a| && k < |b| && a[..k] == b[..k]
    && (k == |a| || a[k] < b[k])
  }

  lemma FirstAgrees(a: string, b: string, k: nat)
    requires DiffersFirstAt(a, b, k)
    ensures k == 0 || (a != "" && b != "" && a[0] == b[0])
  {
    if k > 0 {
      assert a[0] == a[..k][0] && b[0] == b[..k][0];
    }
  }

  lemma {:induction false} BelowAtFirstDifference(a: string, b: string)
    ensures Below(a, b) <==> exists k: nat :: DiffersFirstAt(a, b, k)
  {
    if a == "" || b == "" || a[0] != b[0] {
      if Below(a, b) {
        assert DiffersFirstAt(a, b, 0);
      }
      forall k: nat | DiffersFirstAt(a, b, k)
        ensures k == 0
      {
        FirstAgrees(a, b, k);
      }
    } else {
      BelowAtFirstDifference(a[1..], b[1..]);
      if k: nat :| DiffersFirstAt(a[1..], b[1..], k) {
        assert a[..k + 1] == [a[0]] + a[1..][..k] && b[..k + 1] == [b[0]] + b[1..][..k];
        assert DiffersFirstAt(a, b, k + 1);
      }
      if k: nat :| DiffersFirstAt(a, b, k) {
        assert k > 0;
        assert a[1..][..k - 1] == a[..k][1..] && b[1..][..k - 1] == b[..k][1..];
        assert DiffersFirstAt(a[1..], b[1..], k - 1);
      }
    }
  }

  predicate Ascending(ts: seq<string>) {
    forall i, j | 0 <= i < j < |ts| :: Below(ts[i], ts[j])
  }

  /** Insert into an ascending list unless already there. */
  function Insert(t: string, ts: seq<string>): seq<string> {
    if ts == [] then [t]
    else if t == ts[0] then ts
    else if Below(t, ts[0]) then [t] + ts
    else [ts[0]] + Insert(t, ts[1..])
  }

  /** `sorted(set(ts))`. */
  function SortedDistinct(ts: seq<string>): seq<string> {
    if ts == [] then [] else Insert(ts[0], SortedDistinct(ts[1..]))
  }

  function Elements(ts: seq<string>): set<string> {
    set t | t in ts
  }

  lemma {:induction false} InsertAscends(t: string, ts: seq<string>)
    requires Ascending(ts)
    ensures Ascending(Insert(t, ts))
    ensures Elements(Insert(t, ts)) == Elements(ts) + {t}
  {
    if ts == [] || t == ts[0] {
    } else if Below(t, ts[0]) {
      forall j | 0 < j < |ts| ensures Below(t, ts[j]) {
        BelowIsStrictOrder(t, ts[0], ts[j]);
      }
    } else {
      BelowIsStrictOrder(t, ts[0], t);
      InsertAscends(t, ts[1..]);
      var tail := Insert(t, ts[1..]);
      forall j | 0 <= j < |tail| ensures Below(ts[0], tail[j]) {
        assert tail[j] in Elements(tail);
      }
      assert Elements(ts) == {ts[0]} + Elements(ts[1..]);
      assert Elements(Insert(t, ts)) == {ts[0]} + Elements(tail);
    }
  }

  lemma {:induction false} SortedDistinctSorts(ts: seq<string>)
    ensures Ascending(SortedDistinct(ts))
    ensures Elements(SortedDistinct(ts)) == Elements(ts)
  {
    if ts != [] {
      SortedDistinctSorts(ts[1..]);
      InsertAscends(ts[0], SortedDistinct(ts[1..]));
      assert Elements(ts) == {ts[0]} + Elements(ts[1..]);
    }
  }

  /** An ascending list is determined by its elements. */
  lemma {:induction false} AscendingIsUnique(a: seq<string>, b: seq<string>)
    requires Ascending(a) && Ascending(b)
    requires Elements(a) == Elements(b)
    ensures a == b
  {
    assert a != [] ==> a[0] in Elements(b);
    assert b != [] ==> b[0] in Elements(a);
    if a != [] {
      HeadIsLeast(a, b);
      HeadIsLeast(b, a);
      BelowIsStrictOrder(a[0], b[0], a[0]);
      forall x ensures x in Elements(a[1..]) <==> x in Elements(b[1..]) {
        BelowIsStrictOrder(a[0], a[0], a[0]);
        assert x in Elements(a) <==> x == a[0] || x in Elements(a[1..]);
        assert x in Elements(b) <==> x == b[0] || x in Elements(b[1..]);
      }
      AscendingIsUnique(a[1..], b[1..]);
    }
  }

  lemma HeadIsLeast(a: seq<string>, b: seq<string>)
    requires Ascending(b) && a != [] && b != [] && a[0] in Elements(b)
    ensures b[0] == a[0] || Below(b[0], a[0])
  {
    var j :| 0 <= j < |b| && b[j] == a[0];
  }
}
