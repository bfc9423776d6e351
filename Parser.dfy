/** One line of the program text format: recognising it against the
    loader's line grammar and converting its two fields the way Go's
    strconv.Atoi does. */
module Parser {
  import opened Arith
  import opened Wrappers

  /** Why a load stopped. BadFile stands for a failure of the line scanner
      itself, which this model does not produce (its input is already split
      into lines). */
  datatype LoadError = BadFile | BadLine | BadAddr | BadValue

  const MinInt64: int := -0x8000_0000_0000_0000
  const MaxInt64: int := 0x7fff_ffff_ffff_ffff

  // ---------------------------------------------------------------------
  // Character classes of the line grammar

  /** `\d` of the regular expression: an ASCII digit. */
  predicate IsDigit(c: char) {
    '0' <= c <= '9'
  }

  /** `\s` of the regular expression: tab, newline, form feed, carriage
      return or space. */
  predicate IsSpace(c: char) {
    c == ' ' || c == '\t' || c == '\n' || c == 12 as char || c == '\r'
  }

  datatype CharClass = DigitClass | SpaceClass | DashClass

  predicate InClass(k: CharClass, c: char) {
    match k
    case DigitClass => IsDigit(c)
    case SpaceClass => IsSpace(c)
    case DashClass => c == '-'
  }

  predicate AllIn(s: string, k: CharClass) {
    forall i :: 0 <= i < |s| ==> InClass(k, s[i])
  }

  /** The end of the longest run of class-`k` characters of `s` that starts
      at `from`. */
  function Span(s: string, k: CharClass, from: nat): (n: nat)
    requires from <= |s|
    ensures from <= n <= |s| && forall x :: from <= x < n ==> InClass(k, s[x])
    ensures n < |s| ==> !InClass(k, s[n])
    decreases |s| - from
  {
    if from == |s| || !InClass(k, s[from]) then from else Span(s, k, from + 1)
  }

  /** A run that is all in `k` and is followed by a character outside `k`
      (or by the end) is the one Span measures. */
  lemma SpanUnique(s: string, k: CharClass, from: nat, n: nat)
    requires from <= n <= |s| && forall x :: from <= x < n ==> InClass(k, s[x])
    requires n < |s| ==> !InClass(k, s[n])
    ensures Span(s, k, from) == n
  {
  }

  // ---------------------------------------------------------------------
  // The line grammar  ^(\d+):\s*(-*\d+)(\s.*)*$

  predicate NoNewline(s: string) {
    forall i :: 0 <= i < |s| ==> s[i] != '\n'
  }

  /** The language of `(\s.*)*`: zero or more groups, each a whitespace
      character followed by characters other than newline. */
  ghost predicate Groups(s: string)
    decreases |s|
  {
    s == [] ||
    (IsSpace(s[0]) && exists k :: 1 <= k <= |s| && NoNewline(s[1..k]) && Groups(s[k..]))
  }

  /** The trailer test the recogniser uses. */
  predicate Trailer(s: string) {
    s == [] || IsSpace(s[0])
  }

  /** `(\s.*)*` accepts exactly the empty string and the strings that start
      with whitespace: a newline later on simply starts another group. */
  lemma {:induction false} GroupsIsTrailer(s: string)
    ensures Groups(s) <==> Trailer(s)
    decreases |s|
  {
    if s != [] && IsSpace(s[0]) {
      var k := NonNewlineRun(s, 1);
      assert NoNewline(s[1..k]);
      if k < |s| {
        assert s[k..][0] == '\n';
        GroupsIsTrailer(s[k..]);
      }
      assert Groups(s[k..]);
    }
  }

  /** The end of the newline-free run of `s` that starts at `from`. */
  function NonNewlineRun(s: string, from: nat): (n: nat)
    requires from <= |s|
    ensures from <= n <= |s| && forall x :: from <= x < n ==> s[x] != '\n'
    ensures n < |s| ==> s[n] == '\n'
    decreases |s| - from
  {
    if from == |s| || s[from] == '\n' then from else NonNewlineRun(s, from + 1)
  }

  /** `line` splits as address digits `a`, a colon, whitespace `w`, dashes
      `d`, value digits `v` and a trailer `rest` of the regular expression. */
  ghost predicate Splits(line: string, a: string, w: string, d: string, v: string, rest: string) {
    && line == a + ":" + w + d + v + rest
    && |a| > 0 && AllIn(a, DigitClass)
    && AllIn(w, SpaceClass)
    && AllIn(d, DashClass)
    && |v| > 0 && AllIn(v, DigitClass)
    && Groups(rest)
  }

  /** Whether the regular expression matches the whole line. */
  ghost predicate Matches(line: string) {
    exists a, w, d, v, rest :: Splits(line, a, w, d, v, rest)
  }

  /** The two capture groups the loader uses: the address digits and the
      value (its dashes and digits). */
  datatype Fields = Fields(addr: string, value: string)

  /** A hand-written matcher for the line grammar. Each part of the grammar
      is a maximal run, so the match and its capture groups are unique. */
  function Recognise(line: string): Option<Fields> {
    var i := Span(line, DigitClass, 0);
    if i == 0 || i == |line| || line[i] != ':' then None
    else
      var j := Span(line, SpaceClass, i + 1);
      var k := Span(line, DashClass, j);
      var l := Span(line, DigitClass, k);
      if l == k || !Trailer(line[l..]) then None
      else Some(Fields(line[..i], line[j..l]))
  }

  /** The matcher accepts exactly the lines the regular expression matches. */
  lemma RecogniseCorrect(line: string)
    ensures Recognise(line).Some? <==> Matches(line)
  {
    if Recognise(line).Some? {
      RecogniseSound(line);
    }
    if Matches(line) {
      var a, w, d, v, rest :| Splits(line, a, w, d, v, rest);
      RecogniseComplete(line, a, w, d, v, rest);
    }
  }

  /** A sequence is the concatenation of its pieces between the cut points. */
  lemma Pieces(s: string, i: nat, j: nat, k: nat, l: nat)
    requires i < j <= k <= l <= |s|
    ensures s == s[..i] + [s[i]] + s[i + 1..j] + s[j..k] + s[k..l] + s[l..]
  {
    assert s[..j] == s[..i] + [s[i]] + s[i + 1..j];
    assert s[..k] == s[..j] + s[j..k];
    assert s[..l] == s[..k] + s[k..l];
  }

  /** What the matcher accepts splits as the grammar says. */
  lemma RecogniseSound(line: string)
    requires Recognise(line).Some?
    ensures Matches(line)
  {
    var i := Span(line, DigitClass, 0);
    var j := Span(line, SpaceClass, i + 1);
    var k := Span(line, DashClass, j);
    var l := Span(line, DigitClass, k);
    SplitAt(line, i, j, k, l);
  }

  /** Cut points that delimit runs of the right classes give a split. */
  lemma SplitAt(line: string, i: nat, j: nat, k: nat, l: nat)
    requires 0 < i < j <= k < l <= |line| && line[i] == ':'
    requires forall x :: 0 <= x < i ==> InClass(DigitClass, line[x])
    requires forall x :: i + 1 <= x < j ==> InClass(SpaceClass, line[x])
    requires forall x :: j <= x < k ==> InClass(DashClass, line[x])
    requires forall x :: k <= x < l ==> InClass(DigitClass, line[x])
    requires Trailer(line[l..])
    ensures Splits(line, line[..i], line[i + 1..j], line[j..k], line[k..l], line[l..])
  {
    var a, w, d, v, rest := line[..i], line[i + 1..j], line[j..k], line[k..l], line[l..];
    assert line == a + ":" + w + d + v + rest by {
      Pieces(line, i, j, k, l);
      assert [line[i]] == ":";
    }
    assert AllIn(a, DigitClass) by { AllInSlice(line, DigitClass, 0, i); }
    assert AllIn(w, SpaceClass) by { AllInSlice(line, SpaceClass, i + 1, j); }
    assert AllIn(d, DashClass) by { AllInSlice(line, DashClass, j, k); }
    assert AllIn(v, DigitClass) by { AllInSlice(line, DigitClass, k, l); }
    assert Groups(rest) by { GroupsIsTrailer(rest); }
  }

  /** A stretch whose characters are all in `k` is, as a slice, all in `k`. */
  lemma AllInSlice(s: string, k: CharClass, from: nat, to: nat)
    requires from <= to <= |s| && forall x :: from <= x < to ==> InClass(k, s[x])
    ensures AllIn(s[from..to], k)
  {
    forall y | 0 <= y < to - from
      ensures InClass(k, s[from..to][y])
    {
      assert s[from..to][y] == s[from + y];
    }
  }

  /** Every split the grammar admits is the one the matcher finds, so the
      capture groups are determined by the line. */
  lemma RecogniseComplete(line: string, a: string, w: string, d: string, v: string, rest: string)
    requires Splits(line, a, w, d, v, rest)
    ensures Recognise(line) == Some(Fields(a, d + v))
  {
    var i, j, k, l := |a|, |a| + 1 + |w|, |a| + 1 + |w| + |d|, |a| + 1 + |w| + |d| + |v|;
    SplitsIndices(line, a, w, d, v, rest);
    assert Trailer(line[l..]) by { GroupsIsTrailer(rest); }
    RecogniseAt(line, i, j, k, l);
  }

  /** Maximal runs of the right classes at the cut points are what the
      matcher finds. */
  lemma RecogniseAt(line: string, i: nat, j: nat, k: nat, l: nat)
    requires 0 < i < j <= k < l <= |line| && line[i] == ':'
    requires forall x :: 0 <= x < i ==> InClass(DigitClass, line[x])
    requires forall x :: i + 1 <= x < j ==> InClass(SpaceClass, line[x])
    requires forall x :: j <= x < k ==> InClass(DashClass, line[x])
    requires forall x :: k <= x < l ==> InClass(DigitClass, line[x])
    requires Trailer(line[l..])
    ensures Recognise(line) == Some(Fields(line[..i], line[j..l]))
  {
    SpanUnique(line, DigitClass, 0, i);
    SpanUnique(line, SpaceClass, i + 1, j);
    SpanUnique(line, DashClass, j, k);
    SpanUnique(line, DigitClass, k, l);
  }

  /** Where the parts of a split line sit in it. */
  lemma SplitsIndices(line: string, a: string, w: string, d: string, v: string, rest: string)
    requires Splits(line, a, w, d, v, rest)
    ensures var i, j, k, l := |a|, |a| + 1 + |w|, |a| + 1 + |w| + |d|, |a| + 1 + |w| + |d| + |v|;
      && |line| == l + |rest|
      && line[..i] == a && line[i] == ':' && line[j..l] == d + v && line[l..] == rest
      && (forall x :: 0 <= x < i ==> InClass(DigitClass, line[x]))
      && (forall x :: i + 1 <= x < j ==> InClass(SpaceClass, line[x]))
      && (forall x :: j <= x < k ==> InClass(DashClass, line[x]))
      && (forall x :: k <= x < l ==> InClass(DigitClass, line[x]))
  {
    var i, j, k, l := |a|, |a| + 1 + |w|, |a| + 1 + |w| + |d|, |a| + 1 + |w| + |d| + |v|;
    forall x | 0 <= x < i ensures InClass(DigitClass, line[x]) { assert line[x] == a[x]; }
    forall x | i + 1 <= x < j ensures InClass(SpaceClass, line[x]) { assert line[x] == w[x - i - 1]; }
    forall x | j <= x < k ensures InClass(DashClass, line[x]) { assert line[x] == d[x - j]; }
    forall x | k <= x < l ensures InClass(DigitClass, line[x]) { assert line[x] == v[x - k]; }
  }

  // ---------------------------------------------------------------------
  // strconv.Atoi

  function DigitValue(c: char): int
    requires IsDigit(c)
  {
    c as int - '0' as int
  }

  /** The number a string of decimal digits denotes. */
  function DecimalValue(s: string): nat
    requires AllIn(s, DigitClass)
  {
    if s == [] then 0 else 10 * DecimalValue(s[..|s| - 1]) + DigitValue(s[|s| - 1])
  }

  /** Go's strconv.Atoi: an optional `+` or `-`, then one or more decimal
      digits, and the result must fit a 64-bit int. */
  function Atoi(s: string): (r: Option<int>)
    ensures r.Some? ==> MinInt64 <= r.value <= MaxInt64
  {
    var signed := |s| > 0 && (s[0] == '+' || s[0] == '-');
    var mag := if signed then s[1..] else s;
    if mag == [] || !AllIn(mag, DigitClass) then None
    else
      var n: int := if signed && s[0] == '-' then -(DecimalValue(mag) as int) else DecimalValue(mag);
      if MinInt64 <= n <= MaxInt64 then Some(n) else None
  }

  function DigitChar(n: int): (c: char)
    requires 0 <= n < 10
    ensures IsDigit(c) && DigitValue(c) == n
  {
    ('0' as int + n) as char
  }

  /** The decimal digits of a natural number (no leading zeros). */
  function Digits(n: nat): (s: string)
    ensures |s| > 0 && AllIn(s, DigitClass)
  {
    if n < 10 then [DigitChar(n)] else Digits(n / 10) + [DigitChar(n % 10)]
  }

  lemma {:induction false} DigitsValue(n: nat)
    ensures DecimalValue(Digits(n)) == n
  {
    if n >= 10 {
      DigitsValue(n / 10);
      var s := Digits(n);
      assert s[..|s| - 1] == Digits(n / 10);
    }
  }

  /** Go's strconv.Itoa. */
  function Itoa(n: int): string {
    if n < 0 then "-" + Digits(-n) else Digits(n)
  }

  /** Atoi reads back what Itoa writes, for every 64-bit int. */
  lemma AtoiItoa(n: int)
    requires MinInt64 <= n <= MaxInt64
    ensures Atoi(Itoa(n)) == Some(n)
  {
    if n < 0 {
      DigitsValue(-n);
      assert Itoa(n)[1..] == Digits(-n);
    } else {
      DigitsValue(n);
    }
  }

  // ---------------------------------------------------------------------
  // One line

  /** What one line asks of the loader. */
  datatype LineResult = Assign(addr: Address, value: int) | Reject(error: LoadError)

  /** Classifies one line: grammar mismatch, then address conversion and
      range, then value conversion. */
  function ParseLine(line: string): LineResult {
    match Recognise(line)
    case None => Reject(BadLine)
    case Some(f) =>
      match Atoi(f.addr)
      case None => Reject(BadAddr)
      case Some(a) =>
        if a < 0 || a >= MemSize then Reject(BadAddr)
        else
          match Atoi(f.value)
          case None => Reject(BadValue)
          case Some(v) => Assign(a, v)
  }

  /** The value an accepted line denotes: its digits, negated by a single
      dash; two or more dashes denote nothing. */
  function SignedValue(d: string, v: string): Option<int>
    requires AllIn(v, DigitClass)
  {
    if |d| == 0 then Some(DecimalValue(v))
    else if |d| == 1 then Some(-(DecimalValue(v) as int))
    else None
  }

  /** Atoi on a non-empty run of digits. */
  lemma AtoiDigits(s: string)
    requires |s| > 0 && AllIn(s, DigitClass)
    ensures Atoi(s) == if DecimalValue(s) <= MaxInt64 then Some(DecimalValue(s)) else None
  {
    assert s[0] != '+' && s[0] != '-';
  }

  /** Atoi on the value group of a matching line: dashes, then digits. */
  lemma AtoiValue(d: string, v: string)
    requires AllIn(d, DashClass) && |v| > 0 && AllIn(v, DigitClass)
    ensures Atoi(d + v) ==
      match SignedValue(d, v)
      case Some(n) => if MinInt64 <= n <= MaxInt64 then Some(n) else None
      case None => None
  {
    var s := d + v;
    if |d| == 0 {
      assert s == v;
      AtoiDigits(v);
    } else if |d| == 1 {
      assert s[0] == '-' && s[1..] == v;
    } else {
      assert s[0] == '-' && s[1..][0] == '-';
    }
  }

  /** A line is classified in terms of the grammar: bad-line exactly when
      the expression does not match; otherwise bad-address exactly when the
      address digits denote 50 or more; otherwise bad-value exactly when the
      value has more than one dash or does not fit 64 bits; otherwise the
      line assigns the value to the address. */
  lemma ParseLineClassified(line: string, a: string, w: string, d: string, v: string, rest: string)
    ensures ParseLine(line) == Reject(BadLine) <==> !Matches(line)
    ensures Splits(line, a, w, d, v, rest) ==>
      ParseLine(line) ==
        if DecimalValue(a) >= MemSize then Reject(BadAddr)
        else match SignedValue(d, v)
          case Some(n) =>
            if MinInt64 <= n <= MaxInt64 then Assign(DecimalValue(a), n) else Reject(BadValue)
          case None => Reject(BadValue)
  {
    RecogniseCorrect(line);
    if Splits(line, a, w, d, v, rest) {
      RecogniseComplete(line, a, w, d, v, rest);
      AtoiDigits(a);
      AtoiValue(d, v);
    }
  }

  /** The program text format: `<addr>: <value>` and an optional comment
      separated by whitespace. */
  function FormatLine(addr: int, value: int, comment: string): string {
    Itoa(addr) + ": " + Itoa(value) + comment
  }

  /** Every line written in the program format loads back as the assignment
      it was written from. */
  lemma ParseFormatLine(addr: int, value: int, comment: string)
    requires InBounds(addr) && MinInt64 <= value <= MaxInt64
    requires Trailer(comment)
    ensures ParseLine(FormatLine(addr, value, comment)) == Assign(addr, value)
  {
    var a := Digits(addr);
    var d := if value < 0 then "-" else "";
    var v := if value < 0 then Digits(-value) else Digits(value);
    FormatLineSplits(addr, value, comment, a, d, v);
    ParseLineClassified(FormatLine(addr, value, comment), a, " ", d, v, comment);
    DigitsValue(addr);
    DigitsValue(if value < 0 then -value else value);
  }

  lemma FormatLineSplits(addr: int, value: int, comment: string, a: string, d: string, v: string)
    requires InBounds(addr) && Trailer(comment)
    requires a == Digits(addr)
    requires d == (if value < 0 then "-" else "")
    requires v == (if value < 0 then Digits(-value) else Digits(value))
    ensures Splits(FormatLine(addr, value, comment), a, " ", d, v, comment)
  {
    var head := a + ":" + " ";
    assert Itoa(addr) + ": " == head by {
      assert ": " == ":" + " ";
    }
    assert FormatLine(addr, value, comment) == head + d + v + comment by {
      assert Itoa(value) == d + v;
      assert head + (d + v) == head + d + v;
    }
    assert AllIn(" ", SpaceClass);
    assert Groups(comment) by { GroupsIsTrailer(comment); }
  }

}
