/** The HH:MM:SS text form of GTFS times (GTFS Schedule Reference, "Field Types", type Time):
    the parser and its inverse. */
module TimeFormat {
  import opened Domain

  datatype Result<+T> = Ok(value: T) | ValueError

  /** What the language knows of characters: which ones are white space, which ones are digits, and
      the value of those that can stand in a decimal number. Some digits cannot, superscripts for
      instance. */
  datatype Charset = Charset(isSpace: char -> bool, isDigit: char -> bool, decimal: char -> Option<nat>) {
    /** ASCII digits are what they should be; a colon is no digit, and no digit is a space. */
    ghost predicate Valid() {
      && (forall c: char | decimal(c).Some? :: decimal(c).value < 10 && isDigit(c))
      && (forall c: char | isDigit(c) :: !isSpace(c))
      && (forall c: char | IsDigitChar(c) :: decimal(c) == Some(c as int - '0' as int))
      && !isDigit(':')
    }

    predicate AreDigits(s: string) {
      |s| > 0 && forall i | 0 <= i < |s| :: isDigit(s[i])
    }

    predicate AreDecimal(s: string) {
      forall i | 0 <= i < |s| :: decimal(s[i]).Some?
    }

    function ToInt(s: string): nat
      requires AreDecimal(s)
    {
      if s == [] then 0 else 10 * ToInt(s[..|s| - 1]) + decimal(s[|s| - 1]).value
    }

    function Strip(s: string): string {
      if s != [] && isSpace(s[0]) then Strip(s[1..])
      else if s != [] && isSpace(s[|s| - 1]) then Strip(s[..|s| - 1])
      else s
    }

    function Plain(c: char): char {
      if decimal(c).Some? && decimal(c).value < 10 then DigitChar(decimal(c).value) else c
    }

    /** The text with every decimal digit of any script written as the ASCII digit of its value. */
    function InAscii(s: string): string {
      seq(|s|, i requires 0 <= i < |s| => Plain(s[i]))
    }
  }

  /** The characters of ASCII. */
  const ASCII := Charset(
    c => c == ' ' || '\t' <= c <= '\r' || '\U{1C}' <= c <= '\U{1F}',
    c => IsDigitChar(c),
    c => if IsDigitChar(c) then Some(DigitValue(c)) else None)

  function SplitColon(s: string): (parts: seq<string>)
    ensures |parts| >= 1
  {
    if s == [] then [[]]
    else
      var rest := SplitColon(s[1..]);
      if s[0] == ':' then [[]] + rest else [[s[0]] + rest[0]] + rest[1..]
  }

  function ParseParts(cs: Charset, parts: seq<string>): Result<int> {
    if |parts| != 3 then ValueError
    else
      var h, m, sec := parts[0], parts[1], parts[2];
      if !(cs.AreDigits(h) && cs.AreDigits(m) && cs.AreDigits(sec)) then ValueError
      else if |m| != 2 || |sec| != 2 then ValueError
      else if !(cs.AreDecimal(h) && cs.AreDecimal(m) && cs.AreDecimal(sec)) then ValueError
      else if cs.ToInt(m) > 59 || cs.ToInt(sec) > 59 then ValueError
      else Ok(cs.ToInt(h) * 3600 + cs.ToInt(m) * 60 + cs.ToInt(sec))
  }

  function ParseGtfsTime(cs: Charset, value: Option<string>): Result<int> {
    match value
    case None => ValueError
    case Some(text) => ParseParts(cs, SplitColon(cs.Strip(text)))
  }

  // ----- printing -----

  predicate IsDigitChar(c: char) {
    '0' <= c <= '9'
  }

  function DigitChar(d: nat): (c: char)
    requires d < 10
    ensures IsDigitChar(c) && DigitValue(c) == d
  {
    ('0' as int + d) as char
  }

  function DigitValue(c: char): (d: nat)
    requires IsDigitChar(c)
    ensures d < 10
  {
    c as int - '0' as int
  }

  predicate AllDigits(s: string) {
    forall i | 0 <= i < |s| :: IsDigitChar(s[i])
  }

  predicate IsDigit(s: string) {
    |s| > 0 && AllDigits(s)
  }

  /** The number an ASCII digit string stands for. */
  function Value(s: string): nat
    requires AllDigits(s)
  {
    if s == [] then 0 else 10 * Value(s[..|s| - 1]) + DigitValue(s[|s| - 1])
  }

  /** Decimal digits of `n` without leading zeros. */
  function Decimal(n: nat): string {
    (if n < 10 then [] else Decimal(n / 10)) + [DigitChar(n % 10)]
  }

  function TwoDigits(n: nat): string
    requires n < 100
  {
    [DigitChar(n / 10), DigitChar(n % 10)]
  }

  /** `n` seconds as H:MM:SS, with as many hour digits as it takes. */
  function PrintGtfsTime(n: nat): string {
    Decimal(n / 3600) + ":" + TwoDigits(n / 60 % 60) + ":" + TwoDigits(n % 60)
  }

  function Zeros(k: nat): string {
    seq(k, _ => '0')
  }

  // ----- the round trip -----

  /** Among the character sets the theorems speak of is ASCII. */
  lemma AsciiIsValid()
    ensures ASCII.Valid()
  {}

  ghost predicate AllSpace(cs: Charset, s: string) {
    forall i | 0 <= i < |s| :: cs.isSpace(s[i])
  }

  /** Stripping takes the white space off both ends. */
  lemma {:induction false} StripTakesSpace(cs: Charset, s: string) returns (a: string, b: string)
    ensures s == a + cs.Strip(s) + b && AllSpace(cs, a) && AllSpace(cs, b)
    decreases |s|
  {
    if s != [] && cs.isSpace(s[0]) {
      a, b := StripTakesSpace(cs, s[1..]);
      a := [s[0]] + a;
      assert s == [s[0]] + s[1..];
    } else if s != [] && cs.isSpace(s[|s| - 1]) {
      a, b := StripTakesSpace(cs, s[..|s| - 1]);
      b := b + [s[|s| - 1]];
      assert s == s[..|s| - 1] + [s[|s| - 1]];
    } else {
      a, b := [], [];
    }
  }

  /** What has no white space at its ends survives stripping, and nothing around it does. */
  lemma {:induction false} StripLeaves(cs: Charset, a: string, core: string, b: string)
    requires AllSpace(cs, a) && AllSpace(cs, b)
    requires core != [] && !cs.isSpace(core[0]) && !cs.isSpace(core[|core| - 1])
    ensures cs.Strip(a + core + b) == core
    decreases |a| + |b|
  {
    var s := a + core + b;
    if a != [] {
      assert s[0] == a[0] && s[1..] == a[1..] + core + b;
      StripLeaves(cs, a[1..], core, b);
    } else if b != [] {
      assert s[0] == core[0] && s[|s| - 1] == b[|b| - 1];
      assert s[..|s| - 1] == a + core + b[..|b| - 1];
      StripLeaves(cs, a, core, b[..|b| - 1]);
    } else {
      assert s == core;
    }
  }

  /** The text is the printed form of n, but for outer white space, the script of the digits and
      leading zeros of the hour. */
  ghost predicate ReadsAs(cs: Charset, text: string, n: nat) {
    exists a, core, b, k: nat ::
      && text == a + core + b && AllSpace(cs, a) && AllSpace(cs, b)
      && cs.InAscii(core) == Zeros(k) + PrintGtfsTime(n)
  }

  /** The parser accepts exactly the printed times, up to outer white space, the script of the
      digits and leading zeros of the hour, and reads each as the number that was printed. */
  lemma ParsesExactlyPrintedTimes(cs: Charset, text: string, n: nat)
    requires cs.Valid()
    ensures ParseGtfsTime(cs, Some(text)) == Ok(n) <==> ReadsAs(cs, text, n)
  {
    if ParseGtfsTime(cs, Some(text)) == Ok(n) {
      var a, b := StripTakesSpace(cs, text);
      AcceptedIsPrinted(cs, cs.Strip(text), n);
      var k: nat :| cs.InAscii(cs.Strip(text)) == Zeros(k) + PrintGtfsTime(n);
      assert ReadsAs(cs, text, n);
    }
    if ReadsAs(cs, text, n) {
      var a, core, b, k: nat :|
        && text == a + core + b && AllSpace(cs, a) && AllSpace(cs, b)
        && cs.InAscii(core) == Zeros(k) + PrintGtfsTime(n);
      PrintedEndsInDigits(cs, core, k, n);
      StripLeaves(cs, a, core, b);
      PrintedIsAccepted(cs, core, k, n);
    }
  }

  lemma PrintedEndsInDigits(cs: Charset, core: string, k: nat, n: nat)
    requires cs.Valid() && cs.InAscii(core) == Zeros(k) + PrintGtfsTime(n)
    ensures core != [] && !cs.isSpace(core[0]) && !cs.isSpace(core[|core| - 1])
  {
    DecimalDigits(n / 3600);
    TwoDigitsValue(n % 60);
    EndsOfTime(Zeros(k), Decimal(n / 3600), TwoDigits(n / 60 % 60), TwoDigits(n % 60));
    DigitEndsAreNoSpace(cs, core, cs.InAscii(core));
  }

  lemma DigitEndsAreNoSpace(cs: Charset, core: string, ascii: string)
    requires cs.Valid() && cs.InAscii(core) == ascii
    requires ascii != [] && IsDigitChar(ascii[0]) && IsDigitChar(ascii[|ascii| - 1])
    ensures core != [] && !cs.isSpace(core[0]) && !cs.isSpace(core[|core| - 1])
  {
    assert |core| == |ascii|;
    assert cs.Plain(core[0]) == ascii[0] && cs.Plain(core[|core| - 1]) == ascii[|ascii| - 1];
    NoSpaceInDigits(cs, core[0]);
    NoSpaceInDigits(cs, core[|core| - 1]);
  }

  lemma EndsOfTime(zeros: string, h: string, m: string, sec: string)
    requires AllDigits(zeros) && IsDigit(h) && IsDigit(sec)
    ensures var s := zeros + (h + ":" + m + ":" + sec);
            s != [] && IsDigitChar(s[0]) && IsDigitChar(s[|s| - 1])
  {
    var s := zeros + (h + ":" + m + ":" + sec);
    assert s[|s| - 1] == sec[|sec| - 1];
    assert s[0] == if zeros == [] then h[0] else zeros[0];
  }

  lemma NoSpaceInDigits(cs: Charset, c: char)
    requires cs.Valid() && IsDigitChar(cs.Plain(c))
    ensures !cs.isSpace(c)
  {
    assert cs.decimal(c).Some?;
  }

  /** Ten past one in the night after the service day. */
  lemma PastMidnight(cs: Charset)
    requires cs.Valid()
    ensures ParseGtfsTime(cs, Some("25:10:00")) == Ok(25 * 3600 + 10 * 60)
  {
    NightTimePrinted();
    ParseAfterPrint(cs, 90600);
  }

  lemma NightTimePrinted()
    ensures PrintGtfsTime(90600) == "25:10:00"
  {
    DecimalGrows(0, 2);
    DecimalGrows(2, 5);
    assert Decimal(25) == "25";
    assert TwoDigits(10) == "10" && TwoDigits(0) == "00";
  }

  /** Printing and parsing a time gives it back. */
  lemma ParseAfterPrint(cs: Charset, n: nat)
    requires cs.Valid()
    ensures ParseGtfsTime(cs, Some(PrintGtfsTime(n))) == Ok(n)
  {
    var s := PrintGtfsTime(n);
    PrintedIsStripped(cs, n);
    PrintedIsAscii(cs, n);
    assert Zeros(0) + s == s;
    PrintedIsAccepted(cs, s, 0, n);
  }

  lemma PrintedIsStripped(cs: Charset, n: nat)
    requires cs.Valid()
    ensures cs.Strip(PrintGtfsTime(n)) == PrintGtfsTime(n)
  {
    DecimalDigits(n / 3600);
    TwoDigitsValue(n % 60);
    DigitEndsAreStripped(cs, Decimal(n / 3600) + ":" + TwoDigits(n / 60 % 60) + ":", TwoDigits(n % 60));
  }

  lemma DigitEndsAreStripped(cs: Charset, front: string, back: string)
    requires cs.Valid() && front != [] && IsDigitChar(front[0]) && IsDigit(back)
    ensures cs.Strip(front + back) == front + back
  {
    var s, last := front + back, back[|back| - 1];
    assert s[0] == front[0] && s[|s| - 1] == last;
    assert cs.decimal(front[0]).Some? && cs.decimal(last).Some?;
  }

  lemma PrintedIsAscii(cs: Charset, n: nat)
    requires cs.Valid()
    ensures cs.InAscii(PrintGtfsTime(n)) == PrintGtfsTime(n)
  {
    DecimalDigits(n / 3600);
    TwoDigitsValue(n / 60 % 60);
    TwoDigitsValue(n % 60);
    DigitsAreAscii(cs, Decimal(n / 3600));
    DigitsAreAscii(cs, TwoDigits(n / 60 % 60));
    DigitsAreAscii(cs, TwoDigits(n % 60));
    InAsciiOfTime(cs, Decimal(n / 3600), TwoDigits(n / 60 % 60), TwoDigits(n % 60));
  }

  lemma DigitsAreAscii(cs: Charset, s: string)
    requires cs.Valid() && AllDigits(s)
    ensures cs.InAscii(s) == s
  {
    forall i | 0 <= i < |s|
      ensures cs.InAscii(s)[i] == s[i]
    {
      assert cs.decimal(s[i]) == Some(s[i] as int - '0' as int);
    }
  }

  /** Digits of any script become ASCII digits of the same number, and nothing else does. */
  lemma {:induction false} InAsciiReadsAlike(cs: Charset, s: string)
    requires cs.Valid()
    ensures cs.AreDecimal(s) <==> AllDigits(cs.InAscii(s))
    ensures cs.AreDecimal(s) ==> cs.ToInt(s) == Value(cs.InAscii(s)) && (s != [] ==> cs.AreDigits(s))
  {
    forall i | 0 <= i < |s|
      ensures cs.decimal(s[i]).Some? <==> IsDigitChar(cs.InAscii(s)[i])
    {
      assert cs.InAscii(s)[i] == cs.Plain(s[i]);
    }
    if s != [] && cs.AreDecimal(s) {
      InAsciiReadsAlike(cs, s[..|s| - 1]);
      assert cs.InAscii(s)[..|s| - 1] == cs.InAscii(s[..|s| - 1]);
      assert cs.InAscii(s)[|s| - 1] == DigitChar(cs.decimal(s[|s| - 1]).value);
    }
  }

  lemma InAsciiOfTime(cs: Charset, h: string, m: string, sec: string)
    requires cs.Valid()
    ensures cs.InAscii(h + ":" + m + ":" + sec) == cs.InAscii(h) + ":" + cs.InAscii(m) + ":" + cs.InAscii(sec)
  {
    assert cs.Plain(':') == ':';
  }

  /** A colon comes from a colon only, so a text's parts can be told from its ASCII form. */
  lemma PartsOfTime(cs: Charset, s: string, h': string, m': string, sec': string)
    returns (h: string, m: string, sec: string)
    requires cs.Valid() && cs.InAscii(s) == h' + ":" + m' + ":" + sec'
    ensures s == h + ":" + m + ":" + sec
    ensures cs.InAscii(h) == h' && cs.InAscii(m) == m' && cs.InAscii(sec) == sec'
  {
    var i, j := |h'|, |h'| + 1 + |m'|;
    assert |s| == |cs.InAscii(s)| == j + 1 + |sec'|;
    h, m, sec := s[..i], s[i + 1..j], s[j + 1..];
    assert cs.Plain(s[i]) == cs.InAscii(s)[i] == ':';
    assert cs.Plain(s[j]) == cs.InAscii(s)[j] == ':';
    InAsciiOfPart(cs, s, 0, i, h');
    InAsciiOfPart(cs, s, i + 1, j, m');
    InAsciiOfPart(cs, s, j + 1, |s|, sec');
    CutTwice(s, i, j);
  }

  lemma InAsciiOfPart(cs: Charset, s: string, lo: nat, hi: nat, part: string)
    requires lo <= hi <= |s| && cs.InAscii(s)[lo..hi] == part
    ensures cs.InAscii(s[lo..hi]) == part
  {
    forall k | 0 <= k < hi - lo
      ensures cs.InAscii(s[lo..hi])[k] == part[k]
    {
      assert part[k] == cs.InAscii(s)[lo + k] == cs.Plain(s[lo + k]);
    }
  }

  lemma CutTwice(s: string, i: nat, j: nat)
    requires i < j < |s| && s[i] == s[j] == ':'
    ensures s == s[..i] + ":" + s[i + 1..j] + ":" + s[j + 1..]
  {}

  lemma AcceptedIsPrinted(cs: Charset, s: string, n: nat)
    requires cs.Valid() && ParseParts(cs, SplitColon(s)) == Ok(n)
    ensures exists k: nat :: cs.InAscii(s) == Zeros(k) + PrintGtfsTime(n)
  {
    SplitThreeJoins(s);
    var parts := SplitColon(s);
    var h, m, sec := parts[0], parts[1], parts[2];
    InAsciiReadsAlike(cs, h);
    InAsciiReadsAlike(cs, m);
    InAsciiReadsAlike(cs, sec);
    TwoDigitsOf(cs.InAscii(m));
    TwoDigitsOf(cs.InAscii(sec));
    var k := LeadingZeros(cs.InAscii(h));
    ClockParts(n, cs.ToInt(h), cs.ToInt(m), cs.ToInt(sec));
    InAsciiOfTime(cs, h, m, sec);
    JoinedParts(cs.InAscii(s), k, n, cs.InAscii(h), cs.InAscii(m), cs.InAscii(sec));
  }

  lemma JoinedParts(s: string, k: nat, n: nat, h: string, m: string, sec: string)
    requires s == h + ":" + m + ":" + sec
    requires h == Zeros(k) + Decimal(n / 3600) && m == TwoDigits(n / 60 % 60) && sec == TwoDigits(n % 60)
    ensures s == Zeros(k) + PrintGtfsTime(n)
  {}

  lemma ClockParts(n: nat, h: nat, m: nat, sec: nat)
    requires n == h * 3600 + m * 60 + sec && m < 60 && sec < 60
    ensures n / 3600 == h && n / 60 % 60 == m && n % 60 == sec
  {
    assert n / 60 == h * 60 + m;
  }

  lemma PrintedIsAccepted(cs: Charset, s: string, k: nat, n: nat)
    requires cs.Valid() && cs.InAscii(s) == Zeros(k) + PrintGtfsTime(n)
    ensures ParseParts(cs, SplitColon(s)) == Ok(n)
  {
    ClockSum(n);
    ClockIsAccepted(cs, s, k, n / 3600, n / 60 % 60, n % 60);
  }

  lemma ClockSum(n: nat)
    ensures n == n / 3600 * 3600 + n / 60 % 60 * 60 + n % 60
  {
    assert n / 60 / 60 == n / 3600;
  }

  lemma ClockIsAccepted(cs: Charset, s: string, k: nat, hours: nat, minutes: nat, seconds: nat)
    requires cs.Valid() && minutes < 60 && seconds < 60
    requires cs.InAscii(s) == Zeros(k) + (Decimal(hours) + ":" + TwoDigits(minutes) + ":" + TwoDigits(seconds))
    ensures ParseParts(cs, SplitColon(s)) == Ok(hours * 3600 + minutes * 60 + seconds)
  {
    var h', m', sec' := Zeros(k) + Decimal(hours), TwoDigits(minutes), TwoDigits(seconds);
    assert cs.InAscii(s) == h' + ":" + m' + ":" + sec';
    var h, m, sec := PartsOfTime(cs, s, h', m', sec');
    DecimalDigits(hours);
    ZerosDoNotCount(k, Decimal(hours));
    TwoDigitsValue(minutes);
    TwoDigitsValue(seconds);
    PartsAreAccepted(cs, h, m, sec, hours, minutes, seconds);
  }

  lemma PartsAreAccepted(cs: Charset, h: string, m: string, sec: string, hours: nat, minutes: nat, seconds: nat)
    requires cs.Valid() && |m| == |sec| == 2 && minutes < 60 && seconds < 60
    requires IsDigit(cs.InAscii(h)) && Value(cs.InAscii(h)) == hours
    requires IsDigit(cs.InAscii(m)) && Value(cs.InAscii(m)) == minutes
    requires IsDigit(cs.InAscii(sec)) && Value(cs.InAscii(sec)) == seconds
    ensures ParseParts(cs, SplitColon(h + ":" + m + ":" + sec)) == Ok(hours * 3600 + minutes * 60 + seconds)
  {
    InAsciiReadsAlike(cs, h);
    InAsciiReadsAlike(cs, m);
    InAsciiReadsAlike(cs, sec);
    SplitOfJoin(cs, h, m, sec);
    PartsParse(cs, h, m, sec, hours, minutes, seconds);
  }

  lemma PartsParse(cs: Charset, h: string, m: string, sec: string, hours: nat, minutes: nat, seconds: nat)
    requires cs.AreDigits(h) && cs.AreDigits(m) && cs.AreDigits(sec) && |m| == |sec| == 2
    requires cs.AreDecimal(h) && cs.AreDecimal(m) && cs.AreDecimal(sec)
    requires cs.ToInt(h) == hours && cs.ToInt(m) == minutes < 60 && cs.ToInt(sec) == seconds < 60
    ensures ParseParts(cs, [h, m, sec]) == Ok(hours * 3600 + minutes * 60 + seconds)
  {}

  /** One more digit is ten times the number and the digit. */
  lemma ValueGrows(front: string, d: nat)
    requires AllDigits(front) && d < 10
    ensures IsDigit(front + [DigitChar(d)]) && Value(front + [DigitChar(d)]) == 10 * Value(front) + d
  {
    assert (front + [DigitChar(d)])[..|front|] == front;
  }

  lemma TwoDigitsValue(n: nat)
    requires n < 100
    ensures IsDigit(TwoDigits(n)) && Value(TwoDigits(n)) == n
  {
    ValueGrows([], n / 10);
    ValueGrows([DigitChar(n / 10)], n % 10);
    assert [] + [DigitChar(n / 10)] == [DigitChar(n / 10)];
    assert [DigitChar(n / 10)] + [DigitChar(n % 10)] == TwoDigits(n);
  }

  lemma TwoDigitsOf(s: string)
    requires AllDigits(s) && |s| == 2
    ensures Value(s) < 100 && TwoDigits(Value(s)) == s
  {
    var a, b := DigitValue(s[0]), DigitValue(s[1]);
    ValueGrows([], a);
    ValueGrows([DigitChar(a)], b);
    assert [] + [DigitChar(a)] == [DigitChar(a)];
    assert [DigitChar(a)] + [DigitChar(b)] == s;
    TensAndOnes(a, b);
  }

  lemma TensAndOnes(a: nat, b: nat)
    requires b < 10
    ensures (10 * a + b) / 10 == a && (10 * a + b) % 10 == b
  {}

  lemma {:induction false} DecimalDigits(n: nat)
    ensures IsDigit(Decimal(n)) && Value(Decimal(n)) == n
  {
    if n < 10 {
      ValueGrows([], n);
    } else {
      DecimalDigits(n / 10);
      ValueGrows(Decimal(n / 10), n % 10);
    }
  }

  lemma {:induction false} ZerosDoNotCount(k: nat, s: string)
    requires AllDigits(s)
    ensures AllDigits(Zeros(k) + s) && Value(Zeros(k) + s) == Value(s)
  {
    if s != [] {
      ZerosDoNotCount(k, s[..|s| - 1]);
      assert (Zeros(k) + s)[..|Zeros(k) + s| - 1] == Zeros(k) + s[..|s| - 1];
    } else if k > 0 {
      ZerosDoNotCount(k - 1, s);
      assert (Zeros(k) + s)[..k - 1] == Zeros(k - 1) + s;
    }
  }

  /** A run of digits is its number's decimal form behind some zeros. */
  lemma {:induction false} LeadingZeros(s: string) returns (k: nat)
    requires IsDigit(s)
    ensures s == Zeros(k) + Decimal(Value(s))
  {
    var front, d := s[..|s| - 1], DigitValue(s[|s| - 1]);
    DigitIsItsChar(s[|s| - 1]);
    assert s == front + [DigitChar(d)];
    if front == [] {
      k := 0;
      OneDigit(s, d);
    } else {
      var k' := LeadingZeros(front);
      k := LeadingZerosGrow(front, k', d);
    }
  }

  lemma DigitIsItsChar(c: char)
    requires IsDigitChar(c)
    ensures DigitChar(DigitValue(c)) == c
  {}

  lemma OneDigit(s: string, d: nat)
    requires d < 10 && s == [DigitChar(d)]
    ensures AllDigits(s) && s == Zeros(0) + Decimal(Value(s))
  {
    ValueGrows([], d);
    assert [] + [DigitChar(d)] == s;
  }

  lemma LeadingZerosGrow(front: string, k: nat, d: nat) returns (k': nat)
    requires IsDigit(front) && front == Zeros(k) + Decimal(Value(front)) && d < 10
    ensures AllDigits(front + [DigitChar(d)])
    ensures front + [DigitChar(d)] == Zeros(k') + Decimal(Value(front + [DigitChar(d)]))
  {
    var m := Value(front);
    ValueGrows(front, d);
    DecimalGrows(m, d);
    if m == 0 {
      k' := k + 1;
      ZeroGrows(front, k, [DigitChar(d)]);
    } else {
      k' := k;
      Regroup(Zeros(k), Decimal(m), [DigitChar(d)]);
    }
  }

  lemma ZeroGrows(front: string, k: nat, last: string)
    requires front == Zeros(k) + Decimal(0)
    ensures front + last == Zeros(k + 1) + ([] + last)
  {
    ZerosGrow(k);
    assert Decimal(0) == "0";
    assert [] + last == last;
  }

  lemma DecimalGrows(m: nat, d: nat)
    requires d < 10
    ensures Decimal(10 * m + d) == (if m == 0 then [] else Decimal(m)) + [DigitChar(d)]
  {
    TensAndOnes(m, d);
  }

  lemma ZerosGrow(k: nat)
    ensures Zeros(k) + "0" == Zeros(k + 1)
  {}

  lemma Regroup(a: string, b: string, c: string)
    ensures a + b + c == a + (b + c)
  {}

  lemma {:induction false} SplitNoColon(s: string)
    requires ':' !in s
    ensures SplitColon(s) == [s]
  {
    if s != [] {
      SplitNoColon(s[1..]);
      assert [s[0]] + s[1..] == s;
    }
  }

  lemma {:induction false} SplitAtColon(a: string, rest: string)
    requires ':' !in a
    ensures SplitColon(a + ":" + rest) == [a] + SplitColon(rest)
  {
    var s := a + ":" + rest;
    if a == [] {
      assert s[1..] == rest;
    } else {
      assert s[1..] == a[1..] + ":" + rest;
      SplitAtColon(a[1..], rest);
      assert [a[0]] + a[1..] == a;
    }
  }

  lemma SplitOfJoin(cs: Charset, a: string, b: string, c: string)
    requires cs.Valid() && cs.AreDecimal(a) && cs.AreDecimal(b) && cs.AreDecimal(c)
    ensures SplitColon(a + ":" + b + ":" + c) == [a, b, c]
  {
    assert a + ":" + b + ":" + c == a + ":" + (b + ":" + c);
    SplitAtColon(a, b + ":" + c);
    SplitAtColon(b, c);
    SplitNoColon(c);
  }

  /** Where the first part ends: at the end of the text or at its first colon. */
  function HeadLength(s: string): (c: nat)
    ensures c <= |s| && (c < |s| ==> s[c] == ':') && ':' !in s[..c]
  {
    if s == [] || s[0] == ':' then 0 else HeadLength(s[1..]) + 1
  }

  lemma SplitHead(s: string) returns (c: nat)
    ensures c <= |s| && SplitColon(s)[0] == s[..c]
    ensures if c == |s| then SplitColon(s) == [s]
            else s[c] == ':' && SplitColon(s) == [s[..c]] + SplitColon(s[c + 1..])
  {
    c := HeadLength(s);
    if c == |s| {
      assert s[..c] == s;
      SplitNoColon(s);
    } else {
      CutAt(s, c);
      SplitAtColon(s[..c], s[c + 1..]);
    }
  }

  lemma SplitThreeJoins(s: string)
    requires |SplitColon(s)| == 3
    ensures var p := SplitColon(s); s == p[0] + ":" + p[1] + ":" + p[2]
  {
    var c := SplitHead(s);
    var t := s[c + 1..];
    var d := SplitHead(t);
    var e := SplitHead(t[d + 1..]);
    CutAt(s, c);
    CutAt(t, d);
    Reassemble(s, s[..c], t, t[..d], t[d + 1..]);
  }

  lemma CutAt(s: string, c: nat)
    requires c < |s| && s[c] == ':'
    ensures s == s[..c] + ":" + s[c + 1..]
  {}

  lemma Reassemble(s: string, a: string, t: string, b: string, u: string)
    requires s == a + ":" + t && t == b + ":" + u
    ensures s == a + ":" + b + ":" + u
  {}
}
