/**
 * `processNumbers`: a comma-separated list of 1-based note numbers turned
 * into 0-based slot indices, with `strtok(…, ",")` for the split and the C
 * library's `atoi` for each token.
 */
module IndexParsing {
  import opened NoteStore

  // ------------------------------------------------------------- strtok

  /** Length of the leading run of non-comma characters. */
  function RunLength(s: string): (n: nat)
    ensures n <= |s|
    ensures forall i :: 0 <= i < n ==> s[i] != ','
    ensures n < |s| ==> s[n] == ','
  {
    if s == [] || s[0] == ',' then 0 else 1 + RunLength(s[1..])
  }

  /** The tokens `strtok(s, ",")` yields: maximal comma-free runs, empty ones dropped. */
  function Tokens(s: string): (r: seq<string>)
    decreases |s|
  {
    if s == [] then []
    else if s[0] == ',' then Tokens(s[1..])
    else [s[..RunLength(s)]] + Tokens(s[RunLength(s)..])
  }

  /** A token is never empty and never holds a comma. */
  predicate IsToken(t: string) {
    t != [] && forall i :: 0 <= i < |t| ==> t[i] != ','
  }

  lemma {:induction false} TokensAreTokens(s: string)
    ensures forall t :: t in Tokens(s) ==> IsToken(t)
    decreases |s|
  {
    if s != [] {
      if s[0] == ',' {
        TokensAreTokens(s[1..]);
      } else {
        TokensAreTokens(s[RunLength(s)..]);
      }
    }
  }

  /** A lone token splits into itself. */
  lemma TokensOfToken(t: string)
    requires IsToken(t)
    ensures Tokens(t) == [t]
  {
    assert RunLength(t) == |t|;
    assert t[..|t|] == t;
  }

  /** A comma splits the input into two independent halves. */
  lemma {:induction false} TokensJoin(a: string, b: string)
    ensures Tokens(a + [','] + b) == Tokens(a) + Tokens(b)
    decreases |a|
  {
    var s := a + [','] + b;
    if a == [] {
      assert s[1..] == b;
    } else if a[0] == ',' {
      assert s[0] == ',' && s[1..] == a[1..] + [','] + b;
      TokensJoin(a[1..], b);
    } else {
      var n := RunLength(a);
      forall i | 0 <= i < n ensures s[i] != ',' {
        assert s[i] == a[i];
      }
      assert s[n] == ',';
      RunLengthUnique(s, n);
      assert s[0] == a[0] && s[..n] == a[..n];
      assert s[n..] == a[n..] + [','] + b;
      assert Tokens(s) == [a[..n]] + Tokens(s[n..]);
      TokensJoin(a[n..], b);
    }
  }

  lemma {:induction false} RunLengthUnique(s: string, n: nat)
    requires n <= |s| && (forall i :: 0 <= i < n ==> s[i] != ',') && (n < |s| ==> s[n] == ',')
    ensures RunLength(s) == n
  {
    if n > 0 {
      RunLengthUnique(s[1..], n - 1);
    }
  }

  /** Position of the first character at or after `i` that is not a comma. */
  function SkipCommas(s: string, i: nat): (j: nat)
    requires i <= |s|
    ensures i <= j <= |s|
    ensures j < |s| ==> s[j] != ','
    ensures Tokens(s[i..]) == Tokens(s[j..])
    decreases |s| - i
  {
    if i < |s| && s[i] == ',' then
      assert s[i..][1..] == s[i + 1..];
      SkipCommas(s, i + 1)
    else i
  }

  lemma TokensAt(s: string, start: nat)
    requires start < |s| && s[start] != ','
    ensures start + RunLength(s[start..]) <= |s|
    ensures Tokens(s[start..]) ==
              [s[start..start + RunLength(s[start..])]] + Tokens(s[start + RunLength(s[start..])..])
  {
    var n := RunLength(s[start..]);
    assert s[start..][..n] == s[start..start + n];
    assert s[start..][n..] == s[start + n..];
  }

  /**
   * One call of `strtok`, resuming at `from`: the start and end of the next
   * token, or a start of |s| when no token is left. (strtok resumes one
   * past the delimiter it overwrote; resuming on that delimiter is the same,
   * as delimiters are skipped first.)
   */
  function Strtok(s: string, from: nat): (span: (nat, nat))
    requires from <= |s|
    ensures from <= span.0 <= span.1 <= |s|
    ensures span.0 == |s| ==> Tokens(s[from..]) == []
    ensures span.0 < |s| ==> Tokens(s[from..]) == [s[span.0..span.1]] + Tokens(s[span.1..])
  {
    var start := SkipCommas(s, from);
    if start == |s| then
      assert Tokens(s[from..]) == Tokens(s[start..]) && s[start..] == [];
      (start, start)
    else
      var stop := start + RunLength(s[start..]);
      TokensAt(s, start);
      assert Tokens(s[from..]) == [s[start..stop]] + Tokens(s[stop..]);
      (start, stop)
  }

  // --------------------------------------------------------------- atoi

  /** The characters `isspace` accepts in the C locale. */
  predicate IsSpace(c: char) {
    c == ' ' || c == '\t' || c == '\n' || c == '\U{000B}' || c == '\U{000C}' || c == '\r'
  }

  predicate IsDigit(c: char) {
    '0' <= c <= '9'
  }

  predicate AllDigits(d: string) {
    forall i :: 0 <= i < |d| ==> IsDigit(d[i])
  }

  /** What is left of `s` after its leading white space. */
  function SkipSpaces(s: string): (t: string)
    ensures |t| <= |s| && t == s[|s| - |t|..]
    ensures t != [] ==> !IsSpace(t[0])
  {
    if s != [] && IsSpace(s[0]) then SkipSpaces(s[1..]) else s
  }

  /** The longest prefix of `s` made of decimal digits. */
  function DigitPrefix(s: string): (d: string)
    ensures AllDigits(d) && |d| <= |s| && d == s[..|d|]
    ensures |d| < |s| ==> !IsDigit(s[|d|])
  {
    if s != [] && IsDigit(s[0]) then [s[0]] + DigitPrefix(s[1..]) else []
  }

  /** The value of a string of decimal digits, most significant first. */
  function DecimalValue(d: string): (v: nat)
    requires AllDigits(d)
    decreases |d|
  {
    if d == [] then 0
    else 10 * DecimalValue(d[..|d| - 1]) + (d[|d| - 1] as int - '0' as int)
  }

  /**
   * `atoi`: leading white space skipped, an optional sign, then the longest
   * run of digits; no digits gives 0. Integers are unbounded here.
   */
  function Atoi(s: string): (v: int)
  {
    var t := SkipSpaces(s);
    if t != [] && t[0] == '-' then -(DecimalValue(DigitPrefix(t[1..])) as int)
    else if t != [] && t[0] == '+' then DecimalValue(DigitPrefix(t[1..]))
    else DecimalValue(DigitPrefix(t))
  }

  /** The usual decimal spelling of a natural number, no leading zeros. */
  function Decimal(n: nat): (d: string)
    ensures AllDigits(d) && d != []
  {
    if n < 10 then [('0' as int + n) as char]
    else Decimal(n / 10) + [('0' as int + n % 10) as char]
  }

  lemma {:induction false} DecimalValueOfDecimal(n: nat)
    ensures DecimalValue(Decimal(n)) == n
  {
    if n >= 10 {
      var d := Decimal(n);
      assert d[..|d| - 1] == Decimal(n / 10);
      DecimalValueOfDecimal(n / 10);
    }
  }

  lemma {:induction false} DigitPrefixOfDigits(d: string, rest: string)
    requires AllDigits(d)
    requires rest == [] || !IsDigit(rest[0])
    ensures DigitPrefix(d + rest) == d
    decreases |d|
  {
    if d != [] {
      assert (d + rest)[1..] == d[1..] + rest;
      DigitPrefixOfDigits(d[1..], rest);
    }
  }

  /** `atoi` reads back a decimal number, whatever non-digit text follows it (a newline, say). */
  lemma AtoiOfDecimal(n: nat, rest: string)
    requires rest == [] || !IsDigit(rest[0])
    ensures Atoi(Decimal(n) + rest) == n
  {
    var s := Decimal(n) + rest;
    assert !IsSpace(s[0]);
    DigitPrefixOfDigits(Decimal(n), rest);
    DecimalValueOfDecimal(n);
  }

  /** A minus sign negates the number read. */
  lemma AtoiOfNegative(n: nat, rest: string)
    requires rest == [] || !IsDigit(rest[0])
    ensures Atoi(['-'] + Decimal(n) + rest) == -(n as int)
  {
    var s := ['-'] + Decimal(n) + rest;
    assert s[0] == '-' && SkipSpaces(s) == s;
    assert s[1..] == Decimal(n) + rest;
    DigitPrefixOfDigits(Decimal(n), rest);
    DecimalValueOfDecimal(n);
    assert Atoi(s) == -(DecimalValue(DigitPrefix(s[1..])) as int);
  }

  /** Leading white space is skipped. */
  lemma AtoiSkipsSpace(c: char, s: string)
    requires IsSpace(c)
    ensures Atoi([c] + s) == Atoi(s)
  {
    assert ([c] + s)[1..] == s;
  }

  /** A token without a single digit reads as 0. */
  lemma AtoiNoDigits(s: string)
    requires forall i :: 0 <= i < |s| ==> !IsDigit(s[i])
    ensures Atoi(s) == 0
  {
    var t := SkipSpaces(s);
    if t != [] {
      assert t[0] == s[|s| - |t|];
      if |t| > 1 {
        assert t[1] == s[|s| - |t| + 1];
      }
    }
  }

  /** A token starting with anything but white space, a sign or a digit ("abc5", say) reads as 0. */
  lemma AtoiNoLeadingDigit(s: string)
    requires s != [] && !IsSpace(s[0]) && !IsDigit(s[0]) && s[0] != '-' && s[0] != '+'
    ensures Atoi(s) == 0
  {
    assert SkipSpaces(s) == s;
    assert DigitPrefix(s) == [];
  }

  // ----------------------------------------------------- processNumbers

  /** Each token's number less one: the 0-based slot it names (a token without digits gives -1). */
  function SlotIndices(tokens: seq<string>): (r: seq<int>)
    ensures |r| == |tokens|
    ensures forall i :: 0 <= i < |r| ==> r[i] + 1 == Atoi(tokens[i])
  {
    seq(|tokens|, i requires 0 <= i < |tokens| => Atoi(tokens[i]) - 1)
  }

  /** What `processNumbers` leaves in `numbers[0 .. count-1]`: one index per token, at most MAX_NOTES. */
  function ParsedIndices(input: string): (r: seq<int>)
    ensures |r| <= MAX_NOTES
    ensures |r| <= |Tokens(input)|
    ensures |r| == |Tokens(input)| || |r| == MAX_NOTES
    ensures forall i :: 0 <= i < |r| ==> r[i] == Atoi(Tokens(input)[i]) - 1
  {
    var tokens := Tokens(input);
    SlotIndices(tokens[..if |tokens| < MAX_NOTES then |tokens| else MAX_NOTES])
  }

  /** The list a user types: decimal numbers separated by single commas. */
  function JoinDecimals(ns: seq<nat>): (s: string)
    requires ns != []
    decreases |ns|
  {
    if |ns| == 1 then Decimal(ns[0]) else Decimal(ns[0]) + [','] + JoinDecimals(ns[1..])
  }

  lemma DecimalIsToken(n: nat, tail: string)
    requires forall i :: 0 <= i < |tail| ==> tail[i] != ','
    ensures IsToken(Decimal(n) + tail)
  {
    var d := Decimal(n);
    forall i | 0 <= i < |d + tail| ensures (d + tail)[i] != ',' {
      if i < |d| {
        assert IsDigit(d[i]);
      }
    }
  }

  /**
   * Typed numbers, optionally followed by comma-free text that does not
   * start with a digit (the newline `fgets` keeps): one token per number,
   * each reading back as that number.
   */
  lemma {:induction false} TokensOfJoined(ns: seq<nat>, tail: string)
    requires ns != []
    requires forall i :: 0 <= i < |tail| ==> tail[i] != ','
    requires tail == [] || !IsDigit(tail[0])
    ensures |Tokens(JoinDecimals(ns) + tail)| == |ns|
    ensures forall i :: 0 <= i < |ns| ==> Atoi(Tokens(JoinDecimals(ns) + tail)[i]) == ns[i]
    decreases |ns|
  {
    if |ns| == 1 {
      NumberWithTail(ns[0], tail);
    } else {
      var d := Decimal(ns[0]);
      var rest := JoinDecimals(ns[1..]) + tail;
      JoinedSplit(ns, tail);
      NumberWithTail(ns[0], []);
      assert d + [] == d;
      TokensCons(d, rest);
      TokensOfJoined(ns[1..], tail);
      ConsReadsBack(d, Tokens(rest), ns);
    }
  }

  /** A number followed by comma-free text not starting with a digit is one token reading back as that number. */
  lemma NumberWithTail(n: nat, tail: string)
    requires forall i :: 0 <= i < |tail| ==> tail[i] != ','
    requires tail == [] || !IsDigit(tail[0])
    ensures Tokens(Decimal(n) + tail) == [Decimal(n) + tail]
    ensures Atoi(Decimal(n) + tail) == n
  {
    DecimalIsToken(n, tail);
    TokensOfToken(Decimal(n) + tail);
    AtoiOfDecimal(n, tail);
  }

  lemma JoinedSplit(ns: seq<nat>, tail: string)
    requires |ns| > 1
    ensures JoinDecimals(ns) + tail == Decimal(ns[0]) + [','] + (JoinDecimals(ns[1..]) + tail)
  {
    var d, more := Decimal(ns[0]) + [','], JoinDecimals(ns[1..]);
    assert JoinDecimals(ns) == d + more;
    assert (d + more) + tail == d + (more + tail);
  }

  lemma TokensCons(d: string, rest: string)
    requires IsToken(d)
    ensures Tokens(d + [','] + rest) == [d] + Tokens(rest)
  {
    TokensJoin(d, rest);
    TokensOfToken(d);
  }

  lemma ConsReadsBack(d: string, more: seq<string>, ns: seq<nat>)
    requires ns != [] && Atoi(d) == ns[0] && |more| == |ns| - 1
    requires forall i :: 0 <= i < |more| ==> Atoi(more[i]) == ns[1..][i]
    ensures forall i :: 0 <= i < |ns| ==> Atoi(([d] + more)[i]) == ns[i]
  {
    forall i | 0 <= i < |ns| ensures Atoi(([d] + more)[i]) == ns[i] {
      if i > 0 {
        assert ([d] + more)[i] == more[i - 1];
      }
    }
  }

  /** Parsing what the user typed gives back the typed numbers, each less one. */
  lemma ParseJoined(ns: seq<nat>, tail: string)
    requires ns != [] && |ns| <= MAX_NOTES
    requires forall i :: 0 <= i < |tail| ==> tail[i] != ','
    requires tail == [] || !IsDigit(tail[0])
    ensures ParsedIndices(JoinDecimals(ns) + tail) == seq(|ns|, i requires 0 <= i < |ns| => ns[i] as int - 1)
  {
    TokensOfJoined(ns, tail);
    var r := ParsedIndices(JoinDecimals(ns) + tail);
    var e := seq(|ns|, i requires 0 <= i < |ns| => ns[i] as int - 1);
    assert |r| == |e|;
    forall i | 0 <= i < |r| ensures r[i] == e[i] {
    }
  }

  /**
   * `processNumbers(input, numbers, &count)`: tokens are taken one `strtok`
   * call at a time and stored as `atoi(token) - 1` until the tokens run out
   * or MAX_NOTES entries are filled; the rest of `numbers` is untouched.
   */
  method ProcessNumbers(input: string, numbers: array<int>) returns (count: int)
    requires numbers.Length == MAX_NOTES
    modifies numbers
    ensures 0 <= count <= MAX_NOTES
    ensures numbers[..count] == ParsedIndices(input)
    ensures numbers[count..] == old(numbers[count..])
  {
    ghost var tokens := Tokens(input);
    ghost var original := numbers[..];
    var from := 0;
    var token := Strtok(input, from);
    assert input[from..] == input;
    count := 0;
    while token.0 < |input| && count < MAX_NOTES
      invariant 0 <= from <= |input| && token == Strtok(input, from)
      invariant 0 <= count <= MAX_NOTES && count <= |tokens|
      invariant Tokens(input[from..]) == tokens[count..]
      invariant numbers[..] == SlotIndices(tokens[..count]) + original[count..]
      decreases |input| - from
    {
      var word := input[token.0..token.1];
      TakeOne(tokens, count, word, Tokens(input[token.1..]));
      ghost var before := numbers[..];
      numbers[count] := Atoi(word) - 1;
      assert numbers[..] == before[count := Atoi(word) - 1];
      StoreOne(original, tokens, count, word, numbers[..]);
      count := count + 1;
      from := token.1;
      token := Strtok(input, from);
    }
    AllStored(tokens, count, token.0 == |input|);
    SplitAt(numbers[..], SlotIndices(tokens[..count]), original[count..]);
    assert ParsedIndices(input) == SlotIndices(tokens[..count]);
  }

  /** Taking the token after the first k moves it from the rest to the prefix. */
  lemma TakeOne(tokens: seq<string>, k: nat, word: string, rest: seq<string>)
    requires k <= |tokens| && tokens[k..] == [word] + rest
    ensures k < |tokens| && tokens[k] == word
    ensures tokens[..k + 1] == tokens[..k] + [word]
    ensures tokens[k + 1..] == rest
  {
    assert tokens[k] == tokens[k..][0];
    assert tokens[k + 1..] == tokens[k..][1..];
  }

  /** When the loop stops, the stored prefix is the whole capped token list. */
  lemma AllStored(tokens: seq<string>, count: nat, exhausted: bool)
    requires count <= |tokens| && count <= MAX_NOTES
    requires exhausted ==> tokens[count..] == []
    requires exhausted || count == MAX_NOTES
    ensures count == if |tokens| < MAX_NOTES then |tokens| else MAX_NOTES
  {
  }

  /** Storing the k-th index extends the stored prefix by one entry and shortens the untouched rest. */
  lemma StoreOne(original: seq<int>, tokens: seq<string>, k: nat, word: string, after: seq<int>)
    requires k < |original| && k < |tokens| && tokens[k] == word
    requires after == (SlotIndices(tokens[..k]) + original[k..])[k := Atoi(word) - 1]
    ensures after == SlotIndices(tokens[..k + 1]) + original[k + 1..]
  {
    var want := SlotIndices(tokens[..k + 1]) + original[k + 1..];
    assert |after| == |want|;
    forall i | 0 <= i < |after| ensures after[i] == want[i] {
      if i < k {
        assert tokens[..k + 1][i] == tokens[..k][i];
      }
    }
  }

  lemma SplitAt(whole: seq<int>, front: seq<int>, back: seq<int>)
    requires whole == front + back
    ensures whole[..|front|] == front && whole[|front|..] == back
  {
  }
}
