/** The order of package versions.

    A version is an epoch and a string.  The string is cut into maximal runs of digits and of letters; everything else
    separates.  Versions compare by epoch, then token by token: a number beats a word, numbers compare by value up to
    a saturating bound, and a version that goes on is newer if it goes on with a number and older if with a word.
  */
module Versions {
  import opened Basics
  import opened Types

  const MAX: U64 := 0xFFFF_FFFF_FFFF_FFFF

  datatype Token = Alpha(text: Text) | Numeric(value: U64)

  datatype Order = Less | Equal | Greater {
    function Swap(): Order {
      match this
      case Less => Greater
      case Equal => Equal
      case Greater => Less
    }
  }

  // ---- Tokens --------------------------------------------------------------------------------------

  predicate IsDigit(b: Byte) {
    '0' as int <= b <= '9' as int
  }

  predicate IsLetter(b: Byte) {
    'a' as int <= b <= 'z' as int || 'A' as int <= b <= 'Z' as int
  }

  datatype Class = Digit | Letter | Separator

  function ClassOf(b: Byte): Class {
    if IsDigit(b) then Digit else if IsLetter(b) then Letter else Separator
  }

  function DigitValue(b: Byte): nat
    requires IsDigit(b)
  {
    b - '0' as int
  }

  predicate AllDigits(text: Text) {
    forall i :: 0 <= i < |text| ==> IsDigit(text[i])
  }

  /** The decimal value of a run of digits. */
  function Decimal(digits: Text): nat
    requires AllDigits(digits)
  {
    if digits == [] then 0
    else 10 * Decimal(digits[..|digits| - 1]) + DigitValue(digits[|digits| - 1])
  }

  function Saturated(n: nat): U64 {
    if n <= MAX then n else MAX
  }

  /** The stretch `raw[start..end]`. */
  datatype Stretch = Stretch(start: nat, end: nat)

  /** A nonempty stretch of one class that cannot be made longer on either side. */
  ghost predicate IsMaximalRun(raw: Text, r: Stretch) {
    && r.start < r.end <= |raw|
    && ClassOf(raw[r.start]) != Separator
    && (forall i :: r.start <= i < r.end ==> ClassOf(raw[i]) == ClassOf(raw[r.start]))
    && (r.start > 0 ==> ClassOf(raw[r.start - 1]) != ClassOf(raw[r.start]))
    && (r.end < |raw| ==> ClassOf(raw[r.end]) != ClassOf(raw[r.start]))
  }

  /** The runs are maximal, in order, and leave out no digit or letter before `upTo`. */
  ghost predicate AreRunsUpTo(raw: Text, runs: seq<Stretch>, upTo: nat) {
    && upTo <= |raw|
    && (forall k :: 0 <= k < |runs| ==> IsMaximalRun(raw, runs[k]) && runs[k].end <= upTo)
    && (forall j, k :: 0 <= j < k < |runs| ==> runs[j].end <= runs[k].start)
    && forall i :: 0 <= i < upTo && ClassOf(raw[i]) != Separator ==> Covers(runs, i)
  }

  ghost predicate Covers(runs: seq<Stretch>, i: nat) {
    exists k :: 0 <= k < |runs| && runs[k].start <= i < runs[k].end
  }

  ghost predicate AreRuns(raw: Text, runs: seq<Stretch>) {
    AreRunsUpTo(raw, runs, |raw|)
  }

  ghost function TokenOf(raw: Text, r: Stretch): Token
    requires IsMaximalRun(raw, r)
  {
    if IsDigit(raw[r.start]) then
      RunOfDigits(raw, r);
      Numeric(Saturated(Decimal(raw[r.start..r.end])))
    else Alpha(raw[r.start..r.end])
  }

  lemma RunOfDigits(raw: Text, r: Stretch)
    requires IsMaximalRun(raw, r) && IsDigit(raw[r.start])
    ensures AllDigits(raw[r.start..r.end])
  {
    forall i | 0 <= i < r.end - r.start ensures IsDigit(raw[r.start..r.end][i]) {
      SameClass(raw, r, r.start + i);
    }
  }

  lemma SameClass(raw: Text, r: Stretch, i: int)
    requires IsMaximalRun(raw, r) && r.start <= i < r.end
    ensures ClassOf(raw[i]) == ClassOf(raw[r.start])
  {
  }

  ghost predicate AreTokens(raw: Text, runs: seq<Stretch>, tokens: seq<Token>) {
    && AreRuns(raw, runs)
    && |tokens| == |runs|
    && forall k :: 0 <= k < |runs| ==> tokens[k] == TokenOf(raw, runs[k])
  }

  /** Two maximal runs that meet are the same run. */
  lemma MaximalRunsAgree(raw: Text, r: Stretch, t: Stretch, i: nat)
    requires IsMaximalRun(raw, r) && IsMaximalRun(raw, t)
    requires r.start <= i < r.end && t.start <= i < t.end
    ensures r == t
  {
    SameClass(raw, r, i);
    SameClass(raw, t, i);
    if r.start < t.start {
      SameClass(raw, r, t.start - 1);
    } else if t.start < r.start {
      SameClass(raw, t, r.start - 1);
    }
    if r.end < t.end {
      SameClass(raw, t, r.end);
    } else if t.end < r.end {
      SameClass(raw, r, t.end);
    }
  }

  /** The runs of a string are all its maximal runs. */
  lemma RunsAreAllMaximal(raw: Text, runs: seq<Stretch>, r: Stretch)
    requires AreRuns(raw, runs)
    ensures r in runs <==> IsMaximalRun(raw, r)
  {
    if IsMaximalRun(raw, r) {
      assert Covers(runs, r.start);
      var k :| 0 <= k < |runs| && runs[k].start <= r.start < runs[k].end;
      MaximalRunsAgree(raw, r, runs[k], r.start);
    }
  }

  ghost predicate InOrder(runs: seq<Stretch>) {
    forall j, k :: 0 <= j < k < |runs| ==> runs[j].start < runs[k].start
  }

  lemma {:induction false} OrderedRunsAreEqual(runs: seq<Stretch>, others: seq<Stretch>)
    requires InOrder(runs) && InOrder(others)
    requires forall r :: r in runs <==> r in others
    ensures runs == others
    decreases |runs|
  {
    assert others != [] ==> others[0] in others;
    if runs != [] {
      assert runs[0] in others;
      assert others[0] in runs;
      var i :| 0 <= i < |others| && others[i] == runs[0];
      var j :| 0 <= j < |runs| && runs[j] == others[0];
      assert i == 0;
      forall r ensures r in runs[1..] <==> r in others[1..] {
        NotTheFirst(runs, r);
        NotTheFirst(others, r);
      }
      OrderedRunsAreEqual(runs[1..], others[1..]);
      assert runs == [runs[0]] + runs[1..] && others == [others[0]] + others[1..];
    }
  }

  lemma NotTheFirst(runs: seq<Stretch>, r: Stretch)
    requires runs != [] && InOrder(runs)
    ensures r in runs[1..] <==> r in runs && r != runs[0]
  {
  }

  lemma RunsAreUnique(raw: Text, runs: seq<Stretch>, others: seq<Stretch>)
    requires AreRuns(raw, runs) && AreRuns(raw, others)
    ensures runs == others
  {
    forall r ensures r in runs <==> r in others {
      RunsAreAllMaximal(raw, runs, r);
      RunsAreAllMaximal(raw, others, r);
    }
    OrderedRunsAreEqual(runs, others);
  }

  lemma TokensAreUnique(raw: Text, runs: seq<Stretch>, tokens: seq<Token>, runs': seq<Stretch>, tokens': seq<Token>)
    requires AreTokens(raw, runs, tokens) && AreTokens(raw, runs', tokens')
    ensures tokens == tokens'
  {
    RunsAreUnique(raw, runs, runs');
  }

  /** Parses digits, saturating where the number does not fit. */
  method ParseSaturating(digits: Text) returns (value: U64)
    requires AllDigits(digits)
    ensures value == Saturated(Decimal(digits))
  {
    value := 0;
    for i := 0 to |digits|
      invariant value == Saturated(Decimal(digits[..i]))
    {
      assert digits[..i + 1][..i] == digits[..i];
      value := Saturated(10 * value + DigitValue(digits[i]));
    }
    assert digits[..|digits|] == digits;
  }

  ghost predicate Tokenized(raw: Text, runs: seq<Stretch>, tokens: seq<Token>, upTo: nat) {
    && AreRunsUpTo(raw, runs, upTo)
    && |tokens| == |runs|
    && (forall k :: 0 <= k < |runs| ==> tokens[k] == TokenOf(raw, runs[k]))
  }

  /** Nothing straddles `index`: the next run starts afresh. */
  predicate AtBoundary(raw: Text, index: nat) {
    0 < index < |raw| && ClassOf(raw[index]) != Separator ==> ClassOf(raw[index - 1]) != ClassOf(raw[index])
  }

  method Tokenize(raw: Text) returns (tokens: seq<Token>, ghost runs: seq<Stretch>)
    ensures AreTokens(raw, runs, tokens)
  {
    hide IsMaximalRun, AreRunsUpTo, TokenOf, Decimal, Tokenized;
    tokens, runs := [], [];
    NothingTokenized(raw);
    var index := 0;
    while index < |raw|
      invariant index <= |raw|
      invariant Tokenized(raw, runs, tokens, index)
      invariant AtBoundary(raw, index)
    {
      if ClassOf(raw[index]) == Separator {
        SkipSeparator(raw, runs, tokens, index);
        index := index + 1;
        continue;
      }
      var start := index;
      if IsDigit(raw[index]) {
        while index < |raw| && IsDigit(raw[index])
          invariant start <= index <= |raw| && (index == start ==> index < |raw|)
          invariant forall i :: start <= i < index ==> ClassOf(raw[i]) == Digit
        {
          index := index + 1;
        }
        TokenizedRuns(raw, runs, tokens, start);
        NextRun(raw, runs, start, index, Digit);
        var value := ParseSaturating(raw[start..index]);
        TokenizedRun(raw, runs, tokens, start, index, Numeric(value));
        tokens, runs := tokens + [Numeric(value)], runs + [Stretch(start, index)];
      } else {
        while index < |raw| && IsLetter(raw[index])
          invariant start <= index <= |raw| && (index == start ==> index < |raw|)
          invariant forall i :: start <= i < index ==> ClassOf(raw[i]) == Letter
        {
          index := index + 1;
        }
        TokenizedRuns(raw, runs, tokens, start);
        NextRun(raw, runs, start, index, Letter);
        TokenizedRun(raw, runs, tokens, start, index, Alpha(raw[start..index]));
        tokens, runs := tokens + [Alpha(raw[start..index])], runs + [Stretch(start, index)];
      }
    }
    AllTokenized(raw, runs, tokens);
  }

  lemma NothingTokenized(raw: Text)
    ensures Tokenized(raw, [], [], 0)
  {
  }

  lemma TokenizedRuns(raw: Text, runs: seq<Stretch>, tokens: seq<Token>, index: nat)
    requires Tokenized(raw, runs, tokens, index)
    ensures AreRunsUpTo(raw, runs, index)
  {
  }

  lemma AllTokenized(raw: Text, runs: seq<Stretch>, tokens: seq<Token>)
    requires Tokenized(raw, runs, tokens, |raw|)
    ensures AreTokens(raw, runs, tokens)
  {
  }

  lemma SkipSeparator(raw: Text, runs: seq<Stretch>, tokens: seq<Token>, index: nat)
    requires Tokenized(raw, runs, tokens, index) && index < |raw| && ClassOf(raw[index]) == Separator
    ensures Tokenized(raw, runs, tokens, index + 1) && AtBoundary(raw, index + 1)
  {
  }

  /** A stretch of one class, stopped on both sides, is the next run. */
  lemma NextRun(raw: Text, runs: seq<Stretch>, start: nat, end: nat, class_: Class)
    requires AreRunsUpTo(raw, runs, start) && AtBoundary(raw, start) && start < end <= |raw| && class_ != Separator
    requires forall i :: start <= i < end ==> ClassOf(raw[i]) == class_
    requires end < |raw| ==> ClassOf(raw[end]) != class_
    ensures IsMaximalRun(raw, Stretch(start, end)) && AreRunsUpTo(raw, runs + [Stretch(start, end)], end)
    ensures AtBoundary(raw, end)
    ensures class_ == Digit ==> AllDigits(raw[start..end])
    ensures TokenOf(raw, Stretch(start, end))
         == if class_ == Digit then Numeric(Saturated(Decimal(raw[start..end]))) else Alpha(raw[start..end])
  {
    hide Decimal, ClassOf, AreRunsUpTo;
    assert ClassOf(raw[start]) == class_;
    ExtendRuns(raw, runs, start, end);
    ClassIsDigit(raw[start]);
    if class_ == Digit {
      RunOfDigits(raw, Stretch(start, end));
    }
  }

  lemma ClassIsDigit(b: Byte)
    ensures IsDigit(b) <==> ClassOf(b) == Digit
  {
  }

  lemma ExtendRuns(raw: Text, runs: seq<Stretch>, start: nat, end: nat)
    requires AreRunsUpTo(raw, runs, start) && start < end <= |raw| && IsMaximalRun(raw, Stretch(start, end))
    ensures AreRunsUpTo(raw, runs + [Stretch(start, end)], end)
  {
    hide IsMaximalRun, ClassOf;
    var more := runs + [Stretch(start, end)];
    forall i | 0 <= i < end && ClassOf(raw[i]) != Separator ensures Covers(more, i) {
      if i < start {
        assert Covers(runs, i);
        var k :| 0 <= k < |runs| && runs[k].start <= i < runs[k].end;
        assert more[k] == runs[k];
      } else {
        assert more[|runs|] == Stretch(start, end);
      }
    }
  }

  lemma TokenizedRun(raw: Text, runs: seq<Stretch>, tokens: seq<Token>, start: nat, end: nat, token: Token)
    requires Tokenized(raw, runs, tokens, start)
    requires IsMaximalRun(raw, Stretch(start, end)) && AreRunsUpTo(raw, runs + [Stretch(start, end)], end)
    requires token == TokenOf(raw, Stretch(start, end))
    ensures Tokenized(raw, runs + [Stretch(start, end)], tokens + [token], end)
  {
    hide TokenOf;
  }

  ghost function Tokens(raw: Text): (tokens: seq<Token>)
    ensures exists runs :: AreTokens(raw, runs, tokens)
  {
    TokensExist(raw, |raw|);
    var runs: seq<Stretch>, tokens :| AreTokens(raw, runs, tokens);
    tokens
  }

  lemma TokensExist(raw: Text, n: nat)
    requires n == |raw|
    ensures exists runs, tokens :: AreTokens(raw, runs, tokens)
  {
    var runs := RunsFrom(raw, 0, []);
    var tokens := seq(|runs|, k requires 0 <= k < |runs| => TokenOf(raw, runs[k]));
    assert AreTokens(raw, runs, tokens);
  }

  lemma RunsFrom(raw: Text, index: nat, done: seq<Stretch>) returns (runs: seq<Stretch>)
    requires AreRunsUpTo(raw, done, index)
    requires AtBoundary(raw, index)
    ensures AreRuns(raw, runs)
    decreases |raw| - index
  {
    if index == |raw| {
      runs := done;
    } else if ClassOf(raw[index]) == Separator {
      runs := RunsFrom(raw, index + 1, done);
    } else {
      var end := index + 1;
      while end < |raw| && ClassOf(raw[end]) == ClassOf(raw[index])
        invariant index < end <= |raw|
        invariant forall i :: index <= i < end ==> ClassOf(raw[i]) == ClassOf(raw[index])
      {
        end := end + 1;
      }
      NextRun(raw, done, index, end, ClassOf(raw[index]));
      runs := RunsFrom(raw, end, done + [Stretch(index, end)]);
    }
  }

  // ---- Comparing -----------------------------------------------------------------------------------

  function CompareNat(a: nat, b: nat): Order {
    if a < b then Less else if a == b then Equal else Greater
  }

  function CompareText(a: Text, b: Text): Order {
    if a == [] && b == [] then Equal
    else if a == [] then Less
    else if b == [] then Greater
    else if a[0] == b[0] then CompareText(a[1..], b[1..])
    else if a[0] < b[0] then Less else Greater
  }

  function CompareToken(a: Token, b: Token): Order {
    match (a, b)
    case (Alpha(s), Alpha(t)) => CompareText(s, t)
    case (Alpha(_), Numeric(_)) => Less
    case (Numeric(_), Alpha(_)) => Greater
    case (Numeric(m), Numeric(n)) => CompareNat(m, n)
  }

  function CompareTokens(a: seq<Token>, b: seq<Token>): Order {
    if a == [] && b == [] then Equal
    else if b == [] then if a[0].Numeric? then Greater else Less
    else if a == [] then if b[0].Numeric? then Less else Greater
    else if CompareToken(a[0], b[0]) == Equal then CompareTokens(a[1..], b[1..])
    else CompareToken(a[0], b[0])
  }

  ghost function Compare(a: Version, b: Version): Order {
    if a.epoch != b.epoch then CompareNat(a.epoch, b.epoch) else CompareTokens(Tokens(a.raw), Tokens(b.raw))
  }

  method Cmp(a: Version, b: Version) returns (r: Order)
    ensures r == Compare(a, b)
  {
    hide Tokens, AreTokens, CompareToken;
    if a.epoch != b.epoch {
      return CompareNat(a.epoch, b.epoch);
    }
    var left, leftRuns := Tokenize(a.raw);
    var right, rightRuns := Tokenize(b.raw);
    TokensAre(a.raw, leftRuns, left);
    TokensAre(b.raw, rightRuns, right);
    var i := 0;
    while i < |left| && i < |right|
      invariant i <= |left| && i <= |right|
      invariant CompareTokens(left[i..], right[i..]) == Compare(a, b)
    {
      var order := CompareToken(left[i], right[i]);
      assert left[i..][1..] == left[i + 1..] && right[i..][1..] == right[i + 1..];
      if order != Equal {
        return order;
      }
      i := i + 1;
    }
    if i < |left| {
      return if left[i].Numeric? then Greater else Less;
    }
    if i < |right| {
      return if right[i].Numeric? then Less else Greater;
    }
    r := Equal;
  }

  lemma TokensAre(raw: Text, runs: seq<Stretch>, tokens: seq<Token>)
    requires AreTokens(raw, runs, tokens)
    ensures Tokens(raw) == tokens
  {
    var runs' :| AreTokens(raw, runs', Tokens(raw));
    TokensAreUnique(raw, runs, tokens, runs', Tokens(raw));
  }

  // ---- What the tokens of a string are ----------------------------------------------------------------

  /** The usual digits of a number, most significant first. */
  function DigitsOf(n: nat): (digits: Text)
    ensures digits != [] && AllDigits(digits)
  {
    if n < 10 then [48 + n] else DigitsOf(n / 10) + [48 + n % 10]
  }

  function Zeros(count: nat): Text {
    seq(count, _ => 48)
  }

  lemma DecimalOfAppended(digits: Text, digit: Byte)
    requires AllDigits(digits) && IsDigit(digit)
    ensures AllDigits(digits + [digit])
    ensures Decimal(digits + [digit]) == 10 * Decimal(digits) + (digit - 48)
  {
    assert (digits + [digit])[..|digits|] == digits;
  }

  /** Reading the digits of a number, behind any leading zeros, gives the number. */
  lemma {:induction false} DecimalOfDigits(zeros: nat, n: nat)
    ensures AllDigits(Zeros(zeros) + DigitsOf(n)) && Decimal(Zeros(zeros) + DigitsOf(n)) == n
    decreases n
  {
    var early, last := if n < 10 then Zeros(zeros) else Zeros(zeros) + DigitsOf(n / 10), 48 + n % 10;
    if n < 10 {
      DecimalOfZeros(zeros);
    } else {
      DecimalOfDigits(zeros, n / 10);
    }
    DecimalOfAppended(early, last);
    assert Zeros(zeros) + DigitsOf(n) == early + [last];
  }

  lemma {:induction false} DecimalOfZeros(count: nat)
    ensures Decimal(Zeros(count)) == 0
  {
    if count > 0 {
      DecimalOfZeros(count - 1);
      DecimalOfAppended(Zeros(count - 1), 48);
      assert Zeros(count) == Zeros(count - 1) + [48];
    }
  }

  /** Every run of digits is the digits of a number behind leading zeros. */
  lemma {:induction false} DigitsOfDecimal(digits: Text) returns (zeros: nat)
    requires digits != [] && AllDigits(digits)
    ensures digits == Zeros(zeros) + DigitsOf(Decimal(digits))
  {
    hide Decimal, DigitsOf;
    var early, last := digits[..|digits| - 1], digits[|digits| - 1];
    assert digits == early + [last];
    DecimalOfAppended(early, last);
    zeros := 0;
    if early == [] {
      DecimalOfZeros(0);
      assert early == Zeros(0);
    } else {
      zeros := DigitsOfDecimal(early);
      if Decimal(early) == 0 {
        assert early == Zeros(zeros + 1) by {
          DigitsOfNext(0, 48);
        }
        zeros := zeros + 1;
      }
    }
    DigitsOfNext(Decimal(early), last);
  }

  lemma DigitsOfNext(n: nat, digit: Byte)
    requires 48 <= digit <= 57
    ensures DigitsOf(10 * n + (digit - 48)) == if n == 0 then [digit] else DigitsOf(n) + [digit]
  {
    assert (10 * n + (digit - 48)) / 10 == n && (10 * n + (digit - 48)) % 10 == digit - 48;
  }

  /** The maximal runs, character by character: nothing but digits, or nothing but letters, and as long as can be. */
  lemma RunsByCharacters(raw: Text, r: Stretch)
    ensures IsMaximalRun(raw, r)
       <==> || IsLongestRun(raw, r, b => 48 <= b <= 57)
            || IsLongestRun(raw, r, b => 65 <= b <= 90 || 97 <= b <= 122)
  {
    if IsMaximalRun(raw, r) {
      forall i | r.start <= i < r.end ensures ClassOf(raw[i]) == ClassOf(raw[r.start]) {
        SameClass(raw, r, i);
      }
    }
  }

  ghost predicate IsLongestRun(raw: Text, r: Stretch, belongs: Byte -> bool) {
    && r.start < r.end <= |raw|
    && (forall i :: r.start <= i < r.end ==> belongs(raw[i]))
    && (r.start > 0 ==> !belongs(raw[r.start - 1]))
    && (r.end < |raw| ==> !belongs(raw[r.end]))
  }

  /** The tokens of a string: there is one for each run; a run of letters is a word, and a run of digits is the number
      it spells behind its leading zeros, or the largest 64-bit number if that is smaller. */
  lemma TokensByCharacters(raw: Text, runs: seq<Stretch>, tokens: seq<Token>, k: nat)
    requires AreTokens(raw, runs, tokens) && k < |runs|
    ensures |tokens| == |runs| && runs[k].start < runs[k].end <= |raw|
    ensures var run := raw[runs[k].start..runs[k].end];
            && (run[0] > 57 ==> tokens[k] == Alpha(run))
            && (run[0] <= 57 ==>
                  exists zeros: nat, n: nat ::
                    && run == Zeros(zeros) + DigitsOf(n)
                    && tokens[k] == Numeric(if n <= 18446744073709551615 then n else 18446744073709551615))
  {
    hide Decimal, DigitsOf;
    var r := runs[k];
    assert IsMaximalRun(raw, r) && tokens[k] == TokenOf(raw, r);
    if IsDigit(raw[r.start]) {
      RunOfDigits(raw, r);
      var zeros := DigitsOfDecimal(raw[r.start..r.end]);
    }
  }

  /** A string of digits, behind any leading zeros, is one number. */
  lemma NumberIsOneToken(zeros: nat, n: nat)
    ensures Tokens(Zeros(zeros) + DigitsOf(n))
         == [Numeric(if n <= 18446744073709551615 then n else 18446744073709551615)]
  {
    var raw := Zeros(zeros) + DigitsOf(n);
    DecimalOfDigits(zeros, n);
    DigitsAreOneToken(raw);
  }

  /** A string of one class is one run. */
  lemma OneRun(raw: Text, class_: Class)
    requires raw != [] && class_ != Separator && forall i :: 0 <= i < |raw| ==> ClassOf(raw[i]) == class_
    ensures class_ == Letter ==> Tokens(raw) == [Alpha(raw)]
    ensures class_ == Digit ==> AllDigits(raw) && Tokens(raw) == [Numeric(Saturated(Decimal(raw)))]
  {
    hide Decimal, Tokens, TokenOf, Tokenized, AreRunsUpTo, IsMaximalRun, ClassOf;
    NothingTokenized(raw);
    TokenizedRuns(raw, [], [], 0);
    NextRun(raw, [], 0, |raw|, class_);
    var run := Stretch(0, |raw|);
    TokenizedRun(raw, [], [], 0, |raw|, TokenOf(raw, run));
    assert raw[0..|raw|] == raw;
    assert [] + [run] == [run] && [] + [TokenOf(raw, run)] == [TokenOf(raw, run)];
    AllTokenized(raw, [run], [TokenOf(raw, run)]);
    TokensAre(raw, [run], [TokenOf(raw, run)]);
  }

  /** One more digit multiplies the number by ten and adds the digit, up to the largest 64-bit number. */
  lemma NextDigit(digits: Text, digit: Byte, n: U64)
    requires digits != [] && 48 <= digit <= 57 && forall i :: 0 <= i < |digits| ==> 48 <= digits[i] <= 57
    requires Tokens(digits) == [Numeric(n)]
    ensures Tokens([digit]) == [Numeric(digit - 48)]
    ensures var next := 10 * n + (digit - 48);
            Tokens(digits + [digit]) == [Numeric(if next <= 18446744073709551615 then next
                                                 else 18446744073709551615)]
  {
    hide Tokens, Decimal, Saturated, AllDigits;
    AreAllDigits(digits, digit);
    DigitsAreOneToken(digits);
    assert [Numeric(n)][0] == [Numeric(Saturated(Decimal(digits)))][0];
    DecimalOfAppended(digits, digit);
    DigitsAreOneToken(digits + [digit]);
    SaturatedNext(Decimal(digits), digit - 48);
    DecimalOfZeros(0);
    DecimalOfAppended(Zeros(0), digit);
    assert Zeros(0) + [digit] == [digit];
    DigitsAreOneToken([digit]);
    assert Decimal([digit]) == digit - 48;
  }

  lemma AreAllDigits(digits: Text, digit: Byte)
    requires 48 <= digit <= 57 && forall i :: 0 <= i < |digits| ==> 48 <= digits[i] <= 57
    ensures AllDigits(digits) && AllDigits([digit]) && AllDigits(Zeros(0))
  {
  }

  lemma SaturatedNext(value: nat, digit: nat)
    requires digit < 10
    ensures Saturated(digit) == digit
    ensures var next := 10 * Saturated(value) + digit;
            Saturated(10 * value + digit) == if next <= 18446744073709551615 then next else 18446744073709551615
  {
  }

  lemma DigitsAreOneToken(digits: Text)
    requires digits != [] && AllDigits(digits)
    ensures Tokens(digits) == [Numeric(Saturated(Decimal(digits)))]
  {
    hide Tokens, Decimal;
    OneRun(digits, Digit);
  }

  /** A string of letters is one word, and a string without letters and digits has no tokens. */
  lemma WordIsOneToken(raw: Text)
    ensures (forall i :: 0 <= i < |raw| ==> 65 <= raw[i] <= 90 || 97 <= raw[i] <= 122) && raw != [] ==>
              Tokens(raw) == [Alpha(raw)]
    ensures (forall i :: 0 <= i < |raw| ==> raw[i] < 48 || 57 < raw[i] < 65 || 90 < raw[i] < 97 || 122 < raw[i]) ==>
              Tokens(raw) == []
  {
    hide Tokens;
    if raw != [] && forall i :: 0 <= i < |raw| ==> 65 <= raw[i] <= 90 || 97 <= raw[i] <= 122 {
      OneRun(raw, Letter);
    }
    if forall i :: 0 <= i < |raw| ==> raw[i] < 48 || 57 < raw[i] < 65 || 90 < raw[i] < 97 || 122 < raw[i] {
      assert AreTokens(raw, [], []);
      TokensAre(raw, [], []);
    }
  }

  /** Version 1.10 is newer than version 1.9, and than version 1.010 it is neither newer nor older. */
  lemma TenIsNewerThanNine(epoch: U32)
    ensures Compare(Version(epoch, [49, 46, 49, 48]), Version(epoch, [49, 46, 57])) == Greater
    ensures Compare(Version(epoch, [49, 46, 49, 48]), Version(epoch, [49, 46, 48, 49, 48])) == Equal
  {
    hide Tokens;
    assert DigitsOf(10) == [49, 48] && DigitsOf(9) == [57];
    MinorVersion([49, 46, 49, 48], 0, 10);
    MinorVersion([49, 46, 57], 0, 9);
    MinorVersion([49, 46, 48, 49, 48], 1, 10);
    assert [Numeric(1), Numeric(10)][1..] == [Numeric(10)] && [Numeric(1), Numeric(9)][1..] == [Numeric(9)];
  }

  lemma MinorVersion(raw: Text, zeros: nat, minor: U64)
    requires raw == [49, 46] + (Zeros(zeros) + DigitsOf(minor))
    ensures Tokens(raw) == [Numeric(1), Numeric(minor)]
  {
    hide DigitsOf, Tokenized, AreRunsUpTo, IsMaximalRun, TokenOf, Tokens;
    DecimalOfDigits(zeros, minor);
    assert raw[0..1] == [49] && raw[2..|raw|] == Zeros(zeros) + DigitsOf(minor);
    assert Decimal([49]) == 1;
    assert forall i :: 2 <= i < |raw| ==> raw[i] == raw[2..|raw|][i - 2];
    NothingTokenized(raw);
    NextToken(raw, [], [], 0, 1);
    assert [] + [Stretch(0, 1)] == [Stretch(0, 1)] && [] + [Numeric(1)] == [Numeric(1)];
    SkipSeparator(raw, [Stretch(0, 1)], [Numeric(1)], 1);
    NextToken(raw, [Stretch(0, 1)], [Numeric(1)], 2, |raw|);
    var runs, tokens := [Stretch(0, 1), Stretch(2, |raw|)], [Numeric(1), Numeric(minor)];
    assert [Stretch(0, 1)] + [Stretch(2, |raw|)] == runs && [Numeric(1)] + [Numeric(minor)] == tokens;
    AllTokenized(raw, runs, tokens);
    TokensAre(raw, runs, tokens);
  }

  lemma NextToken(raw: Text, runs: seq<Stretch>, tokens: seq<Token>, start: nat, end: nat)
    requires Tokenized(raw, runs, tokens, start) && AtBoundary(raw, start) && start < end <= |raw|
    requires forall i :: start <= i < end ==> ClassOf(raw[i]) == Digit
    requires end < |raw| ==> ClassOf(raw[end]) != Digit
    ensures AllDigits(raw[start..end])
    ensures Tokenized(raw, runs + [Stretch(start, end)], tokens + [Numeric(Saturated(Decimal(raw[start..end])))], end)
  {
    hide Tokenized, AreRunsUpTo, IsMaximalRun, TokenOf, Decimal;
    TokenizedRuns(raw, runs, tokens, start);
    NextRun(raw, runs, start, end, Digit);
    TokenizedRun(raw, runs, tokens, start, end, TokenOf(raw, Stretch(start, end)));
  }

  // ---- The order is a total preorder ----------------------------------------------------------------

  lemma {:induction false} TextSwaps(a: Text, b: Text)
    ensures CompareText(b, a) == CompareText(a, b).Swap()
    ensures CompareText(a, b) == Equal <==> a == b
  {
    if a != [] && b != [] && a[0] == b[0] {
      TextSwaps(a[1..], b[1..]);
      assert a == [a[0]] + a[1..] && b == [b[0]] + b[1..];
    }
  }

  lemma {:induction false} TextIsTransitive(a: Text, b: Text, c: Text)
    requires CompareText(a, b) != Greater && CompareText(b, c) != Greater
    ensures CompareText(a, c) != Greater
    ensures CompareText(a, b) == Less || CompareText(b, c) == Less ==> CompareText(a, c) == Less
  {
    if a != [] && b != [] && c != [] && a[0] == b[0] == c[0] {
      TextIsTransitive(a[1..], b[1..], c[1..]);
    }
  }

  lemma {:induction false} TokensSwap(a: seq<Token>, b: seq<Token>)
    ensures CompareTokens(b, a) == CompareTokens(a, b).Swap()
    ensures CompareTokens(a, b) == Equal <==> a == b
  {
    if a != [] && b != [] {
      if a[0].Alpha? && b[0].Alpha? {
        TextSwaps(a[0].text, b[0].text);
      }
      if CompareToken(a[0], b[0]) == Equal {
        TokensSwap(a[1..], b[1..]);
        assert a == [a[0]] + a[1..] && b == [b[0]] + b[1..];
      }
    }
  }

  lemma TokenIsTransitive(a: Token, b: Token, c: Token)
    requires CompareToken(a, b) != Greater && CompareToken(b, c) != Greater
    ensures CompareToken(a, c) != Greater
    ensures CompareToken(a, b) == Less || CompareToken(b, c) == Less ==> CompareToken(a, c) == Less
  {
    if a.Alpha? && b.Alpha? && c.Alpha? {
      TextIsTransitive(a.text, b.text, c.text);
    }
  }

  lemma {:induction false} TokensAreTransitive(a: seq<Token>, b: seq<Token>, c: seq<Token>)
    requires CompareTokens(a, b) != Greater && CompareTokens(b, c) != Greater
    ensures CompareTokens(a, c) != Greater
    ensures CompareTokens(a, b) == Less || CompareTokens(b, c) == Less ==> CompareTokens(a, c) == Less
  {
    if a != [] && b != [] && c != [] {
      TokenIsTransitive(a[0], b[0], c[0]);
      if CompareToken(a[0], b[0]) == Equal && CompareToken(b[0], c[0]) == Equal {
        TokensAreTransitive(a[1..], b[1..], c[1..]);
      }
    }
  }

  /** Swapping the versions swaps the order, and versions tie exactly when epoch and tokens agree. */
  lemma CompareIsAntisymmetric(a: Version, b: Version)
    ensures Compare(b, a) == Compare(a, b).Swap()
    ensures Compare(a, b) == Equal <==> a.epoch == b.epoch && Tokens(a.raw) == Tokens(b.raw)
  {
    TokensSwap(Tokens(a.raw), Tokens(b.raw));
  }

  lemma CompareIsTransitive(a: Version, b: Version, c: Version)
    requires Compare(a, b) != Greater && Compare(b, c) != Greater
    ensures Compare(a, c) != Greater
    ensures Compare(a, b) == Less || Compare(b, c) == Less ==> Compare(a, c) == Less
  {
    if a.epoch == b.epoch == c.epoch {
      TokensAreTransitive(Tokens(a.raw), Tokens(b.raw), Tokens(c.raw));
    }
  }

  // ---- The order is decided at the first difference ---------------------------------------------------

  /** Bytewise order: the first different byte decides, and a proper prefix comes first. */
  ghost predicate TextBefore(a: Text, b: Text) {
    exists k :: SplitsAt(a, b, k) && LessAt(a, b, k)
  }

  predicate LessAt(a: Text, b: Text, k: int) {
    0 <= k < |b| && (k < |a| ==> a[k] < b[k])
  }

  ghost predicate TokenBefore(a: Token, b: Token) {
    match (a, b)
    case (Alpha(s), Alpha(t)) => TextBefore(s, t)
    case (Alpha(_), Numeric(_)) => true
    case (Numeric(_), Alpha(_)) => false
    case (Numeric(m), Numeric(n)) => m < n
  }

  /** The sequences agree up to `k` and no further. */
  ghost predicate SplitsAt<T>(a: seq<T>, b: seq<T>, k: int) {
    && 0 <= k <= |a| && k <= |b| && a[..k] == b[..k]
    && (k < |a| && k < |b| ==> a[k] != b[k])
  }

  /** At the first difference, a lesser token is older; a version that has ended is older than one that goes on with a
      number and newer than one that goes on with a word. */
  ghost predicate TokensBefore(a: seq<Token>, b: seq<Token>) {
    exists k :: SplitsAt(a, b, k) && OlderAt(a, b, k)
  }

  ghost predicate OlderAt(a: seq<Token>, b: seq<Token>, k: int)
    requires 0 <= k
  {
    if k < |a| && k < |b| then TokenBefore(a[k], b[k])
    else if k < |a| then a[k].Alpha?
    else k < |b| && b[k].Numeric?
  }

  lemma SplitsLater<T>(a: seq<T>, b: seq<T>, k: int)
    requires a != [] && b != [] && a[0] == b[0]
    ensures k >= 0 ==> (SplitsAt(a, b, k + 1) <==> SplitsAt(a[1..], b[1..], k))
  {
    assert a == [a[0]] + a[1..] && b == [b[0]] + b[1..];
    if 0 <= k < |a| && k < |b| {
      assert a[..k + 1] == [a[0]] + a[1..][..k] && b[..k + 1] == [b[0]] + b[1..][..k];
      assert a[..k + 1][1..] == a[1..][..k] && b[..k + 1][1..] == b[1..][..k];
    }
  }

  lemma SplitsNow<T>(a: seq<T>, b: seq<T>, k: int)
    ensures a == [] || b == [] || a[0] != b[0] ==> (SplitsAt(a, b, k) <==> k == 0)
    ensures a != [] && b != [] && a[0] == b[0] ==> !SplitsAt(a, b, 0)
  {
    assert a[..0] == b[..0];
    if k > 0 && SplitsAt(a, b, k) {
      assert a[..k][0] == a[0] && b[..k][0] == b[0];
    }
  }

  lemma {:induction false} TextIsBytewise(a: Text, b: Text)
    ensures CompareText(a, b) == Less <==> TextBefore(a, b)
  {
    if a != [] && b != [] && a[0] == b[0] {
      TextIsBytewise(a[1..], b[1..]);
      LaterByte(a, b);
    } else {
      SplitsNow(a, b, 0);
      forall k {
        SplitsNow(a, b, k);
      }
    }
  }

  lemma LaterByte(a: Text, b: Text)
    requires a != [] && b != [] && a[0] == b[0]
    ensures TextBefore(a, b) <==> TextBefore(a[1..], b[1..])
  {
    SplitsNow(a, b, 0);
    if k :| SplitsAt(a, b, k) && LessAt(a, b, k) {
      SplitsLater(a, b, k - 1);
      assert LessAt(a[1..], b[1..], k - 1);
    }
    if k :| SplitsAt(a[1..], b[1..], k) && LessAt(a[1..], b[1..], k) {
      SplitsLater(a, b, k);
      assert LessAt(a, b, k + 1);
    }
  }

  lemma {:induction false} TokensByFirstDifference(a: seq<Token>, b: seq<Token>)
    ensures CompareTokens(a, b) == Less <==> TokensBefore(a, b)
  {
    hide CompareText, TextBefore;
    if a != [] && b != [] && a[0] == b[0] {
      TokenIsFirst(a[0], b[0]);
      LaterDifference(a, b);
      TokensByFirstDifference(a[1..], b[1..]);
    } else {
      SplitsNow(a, b, 0);
      forall k {
        SplitsNow(a, b, k);
      }
      if a != [] && b != [] {
        TokenIsFirst(a[0], b[0]);
      }
    }
  }

  lemma TokenIsFirst(a: Token, b: Token)
    ensures CompareToken(a, b) == Less <==> TokenBefore(a, b)
    ensures CompareToken(a, b) == Equal <==> a == b
  {
    if a.Alpha? && b.Alpha? {
      TextIsBytewise(a.text, b.text);
      TextSwaps(a.text, b.text);
    }
  }

  lemma LaterDifference(a: seq<Token>, b: seq<Token>)
    requires a != [] && b != [] && a[0] == b[0]
    ensures TokensBefore(a, b) <==> TokensBefore(a[1..], b[1..])
  {
    hide TokenBefore;
    SplitsNow(a, b, 0);
    if k :| SplitsAt(a, b, k) && OlderAt(a, b, k) {
      SplitsLater(a, b, k - 1);
      assert OlderAt(a[1..], b[1..], k - 1);
    }
    if k :| SplitsAt(a[1..], b[1..], k) && OlderAt(a[1..], b[1..], k) {
      SplitsLater(a, b, k);
      assert OlderAt(a, b, k + 1);
    }
  }

  /** One version is older than another if its epoch is, or the epochs agree and its tokens come first. */
  lemma OlderIsFirstDifference(a: Version, b: Version)
    ensures Compare(a, b) == Less
       <==> a.epoch < b.epoch || (a.epoch == b.epoch && TokensBefore(Tokens(a.raw), Tokens(b.raw)))
  {
    TokensByFirstDifference(Tokens(a.raw), Tokens(b.raw));
  }

  /** Versions that tie need not be equal as values: separators are not part of the order. */
  lemma TiesNeedNotBeEqual()
    ensures var a, b := Version(1, []), Version(1, ['.' as int]);
            a != b && Compare(a, b) == Equal
  {
    TokensAre([], [], []);
    TokensAre(['.' as int], [], []);
  }
}
