/**
  The parts of Go's `strings` and `strconv` packages that the command
  interpreter relies on: `strings.TrimSpace`, `strings.Trim`,
  `strings.SplitN(s, " ", 2)`, `strings.Fields`, `strconv.Atoi`, and the
  decimal formatting of `%d`. Go strings are UTF-8 bytes decoded to runes by
  these functions; here a string is a sequence of Unicode scalar values.
*/
module GoStrings {
  import opened Wrappers

  /**
    Go's `unicode.IsSpace`: the ASCII and Latin-1 white space `\t`, `\n`,
    `\v`, `\f`, `\r`, space, U+0085 and U+00A0, and above Latin-1 the
    characters with the Unicode White_Space property.
  */
  predicate IsSpace(c: char) {
    || '\t' <= c <= '\r' || c == ' ' || c == '\U{0085}' || c == '\U{00A0}'
    || c == '\U{1680}' || '\U{2000}' <= c <= '\U{200A}' || c == '\U{2028}'
    || c == '\U{2029}' || c == '\U{202F}' || c == '\U{205F}' || c == '\U{3000}'
  }

  /** The cutset `"'\""` that the update handler trims from a value. */
  const Quotes: set<char> := {'\'', '"'}

  /** Every character of `s` satisfies `cut`. */
  predicate AllIn(s: string, cut: char -> bool) {
    forall i :: 0 <= i < |s| ==> cut(s[i])
  }

  /** No character of `s` satisfies `cut`. */
  predicate NoneIn(s: string, cut: char -> bool) {
    forall i :: 0 <= i < |s| ==> !cut(s[i])
  }

  // ---------------------------------------------------------------- trimming

  /** The length of the longest prefix of `s` whose characters satisfy `cut`. */
  function SkipLeft(s: string, cut: char -> bool): (n: nat)
    ensures n <= |s|
    ensures forall i :: 0 <= i < n ==> cut(s[i])
    ensures n == |s| || !cut(s[n])
  {
    if s != [] && cut(s[0]) then 1 + SkipLeft(s[1..], cut) else 0
  }

  /** The length of the longest suffix of `s` whose characters satisfy `cut`. */
  function SkipRight(s: string, cut: char -> bool): (n: nat)
    ensures n <= |s|
    ensures forall i :: |s| - n <= i < |s| ==> cut(s[i])
    ensures n == |s| || !cut(s[|s| - n - 1])
  {
    if s != [] && cut(s[|s| - 1]) then 1 + SkipRight(s[..|s| - 1], cut) else 0
  }

  /** `r` is `s` with a run of `cut` characters taken off each end, `r` starting at offset `i`. */
  predicate StrippedAt(s: string, r: string, i: int, cut: char -> bool) {
    && 0 <= i && i + |r| <= |s| && r == s[i..i + |r|]
    && (forall k :: 0 <= k < i ==> cut(s[k]))
    && (forall k :: i + |r| <= k < |s| ==> cut(s[k]))
  }

  /**
    `strings.TrimFunc(s, cut)`: strip the characters satisfying `cut` from
    both ends. The result neither starts nor ends with one, and only such
    characters were taken away.
  */
  function TrimFunc(s: string, cut: char -> bool): (r: string)
    ensures r == [] || (!cut(r[0]) && !cut(r[|r| - 1]))
    ensures exists i :: StrippedAt(s, r, i, cut)
    ensures s == [] || (!cut(s[0]) && !cut(s[|s| - 1])) ==> r == s
  {
    var left := SkipLeft(s, cut);
    if left == |s| then
      assert StrippedAt(s, [], 0, cut);
      []
    else
      var right := SkipRight(s, cut);
      assert left < |s| - right;
      var r := s[left..|s| - right];
      assert StrippedAt(s, r, left, cut);
      r
  }

  /** Membership in a cutset, as the test `strings.Trim` applies to each end character. */
  function InSet(cutset: set<char>): char -> bool {
    c => c in cutset
  }

  /**
    `strings.Trim(s, cutset)`: strip the characters of `cutset` from both
    ends, and nothing else.
  */
  function Trim(s: string, cutset: set<char>): (r: string)
    ensures r == [] || (r[0] !in cutset && r[|r| - 1] !in cutset)
    ensures exists i :: StrippedAt(s, r, i, InSet(cutset))
    ensures s == [] || (s[0] !in cutset && s[|s| - 1] !in cutset) ==> r == s
  {
    TrimFunc(s, InSet(cutset))
  }

  /** `strings.TrimSpace`: strip white space from both ends, and nothing else. */
  function TrimSpace(s: string): (r: string)
    ensures r == [] || (!IsSpace(r[0]) && !IsSpace(r[|r| - 1]))
    ensures exists i :: StrippedAt(s, r, i, IsSpace)
    ensures s == [] || (!IsSpace(s[0]) && !IsSpace(s[|s| - 1])) ==> r == s
  {
    TrimFunc(s, IsSpace)
  }

  // --------------------------------------------------------------- splitting

  /** `strings.Index(s, " ")`: the position of the first space, or -1. */
  function IndexOfSpace(s: string): (i: int)
    ensures -1 <= i < |s|
    ensures i == -1 ==> ' ' !in s
    ensures i >= 0 ==> s[i] == ' ' && ' ' !in s[..i]
  {
    if s == [] then -1
    else if s[0] == ' ' then 0
    else
      var j := IndexOfSpace(s[1..]);
      if j == -1 then -1
      else
        assert s[..j + 1] == [s[0]] + s[1..][..j];
        j + 1
  }

  /**
    `strings.SplitN(s, " ", 2)`: the text before the first space and, when
    there is a space, the text after it.
  */
  function SplitN(s: string): (parts: seq<string>)
    ensures |parts| == 1 || |parts| == 2
    ensures |parts| == 1 <==> ' ' !in s
    ensures |parts| == 1 ==> parts[0] == s
    ensures |parts| == 2 ==> ' ' !in parts[0] && parts[0] + [' '] + parts[1] == s
  {
    var i := IndexOfSpace(s);
    if i < 0 then [s]
    else
      assert s[..i] + [' '] + s[i + 1..] == s;
      [s[..i], s[i + 1..]]
  }

  /** The split of a space-free head, a space and any rest gives back the two pieces. */
  lemma SplitNAtFirstSpace(head: string, rest: string)
    requires ' ' !in head
    ensures SplitN(head + " " + rest) == [head, rest]
  {
    var s := head + " " + rest;
    assert s[|head|] == ' ';
    assert s[..|head|] == head && s[|head| + 1..] == rest;
  }

  /** The number of leading characters of `t` that are not white space. */
  function FieldLength(t: string): (n: nat)
    ensures n <= |t|
    ensures forall i :: 0 <= i < n ==> !IsSpace(t[i])
    ensures n == |t| || IsSpace(t[n])
  {
    if t == [] || IsSpace(t[0]) then 0 else 1 + FieldLength(t[1..])
  }

  /** Each token is non-empty and holds no white space. */
  predicate AreWords(tokens: seq<string>) {
    forall i :: 0 <= i < |tokens| ==> tokens[i] != [] && NoneIn(tokens[i], IsSpace)
  }

  lemma AreWordsCons(word: string, rest: seq<string>)
    requires word != [] && NoneIn(word, IsSpace) && AreWords(rest)
    ensures AreWords([word] + rest)
  {
  }

  /**
    `strings.Fields`: the maximal runs of non-white-space characters, in
    order. The result is empty exactly when `s` is all white space.
  */
  function Fields(s: string): (r: seq<string>)
    ensures AreWords(r)
    ensures r == [] <==> SkipLeft(s, IsSpace) == |s|
    decreases |s|
  {
    var t := s[SkipLeft(s, IsSpace)..];
    if t == [] then []
    else
      var n := FieldLength(t);
      var word := t[..n];
      assert n > 0 && NoneIn(word, IsSpace);
      var rest := Fields(t[n..]);
      AreWordsCons(word, rest);
      [word] + rest
  }

  /** Fields finds no word exactly when the text is all white space. */
  lemma FieldsEmpty(s: string)
    ensures Fields(s) == [] <==> AllIn(s, IsSpace)
  {
    var left := SkipLeft(s, IsSpace);
    if left < |s| {
      assert !IsSpace(s[left]);
    }
  }

  /** `strings.Join(tokens, " ")`. */
  function JoinSpace(tokens: seq<string>): string {
    if tokens == [] then []
    else if |tokens| == 1 then tokens[0]
    else tokens[0] + " " + JoinSpace(tokens[1..])
  }

  /** The first field of a space-free word followed by white space or nothing is that word. */
  lemma {:induction false} FieldLengthOf(word: string, rest: string)
    requires NoneIn(word, IsSpace)
    requires rest == [] || IsSpace(rest[0])
    ensures FieldLength(word + rest) == |word|
  {
    if word != [] {
      assert (word + rest)[1..] == word[1..] + rest;
      FieldLengthOf(word[1..], rest);
    }
  }

  /** A word followed by white space or nothing: Fields takes the word, then splits what follows. */
  lemma FieldsOfWord(word: string, rest: string)
    requires word != [] && NoneIn(word, IsSpace)
    requires rest == [] || IsSpace(rest[0])
    ensures Fields(word + rest) == [word] + Fields(rest)
  {
    var s := word + rest;
    assert SkipLeft(s, IsSpace) == 0 && s[0..] == s;
    FieldLengthOf(word, rest);
    assert s[..|word|] == word && s[|word|..] == rest;
  }

  /** Fields ignores a leading white-space character. */
  lemma FieldsSkipsSpace(s: string)
    requires s != [] && IsSpace(s[0])
    ensures Fields(s) == Fields(s[1..])
  {
    var left := SkipLeft(s, IsSpace);
    assert left == 1 + SkipLeft(s[1..], IsSpace);
    assert s[left..] == s[1..][left - 1..];
  }

  /** A word, a space, then any text: Fields gives the word, then the fields of the text. */
  lemma FieldsAfterSpace(word: string, tail: string)
    requires word != [] && NoneIn(word, IsSpace)
    ensures Fields(word + " " + tail) == [word] + Fields(tail)
  {
    assert word + " " + tail == word + (" " + tail);
    FieldsOfWord(word, " " + tail);
    FieldsSkipsSpace(" " + tail);
    assert (" " + tail)[1..] == tail;
  }

  /**
    Splitting a space-joined list of non-empty, space-free tokens gives the
    tokens back: Fields is a left inverse of JoinSpace.
  */
  lemma {:induction false} FieldsOfJoin(tokens: seq<string>)
    requires AreWords(tokens)
    ensures Fields(JoinSpace(tokens)) == tokens
  {
    if tokens == [] {
    } else if |tokens| == 1 {
      assert tokens[0] + [] == tokens[0];
      FieldsOfWord(tokens[0], []);
    } else {
      var ws := tokens[1..];
      assert AreWords(ws);
      FieldsOfJoin(ws);
      FieldsAfterSpace(tokens[0], JoinSpace(ws));
    }
  }

  // ---------------------------------------------------------------- integers

  /** The range of Go's 64-bit `int`. */
  const MinInt64: int := -0x8000_0000_0000_0000
  const MaxInt64: int := 0x7FFF_FFFF_FFFF_FFFF

  predicate IsDigit(c: char) {
    '0' <= c <= '9'
  }

  predicate AllDigits(s: string) {
    forall i :: 0 <= i < |s| ==> IsDigit(s[i])
  }

  /** The number a string of decimal digits denotes. */
  function DigitsValue(ds: string): nat
    requires AllDigits(ds)
  {
    if ds == [] then 0
    else DigitsValue(ds[..|ds| - 1]) * 10 + (ds[|ds| - 1] as int - '0' as int)
  }

  /** Whether `s` starts with a sign character. */
  predicate Signed(s: string) {
    s != [] && (s[0] == '+' || s[0] == '-')
  }

  /**
    `strconv.Atoi`: an optional `+` or `-`, then one or more decimal
    digits, and a value that fits a 64-bit `int`; anything else is an error.
    `AtoiOfSigned` states the converse: every such token is accepted.
  */
  function Atoi(s: string): (r: Option<int>)
    ensures r.Some? ==> MinInt64 <= r.value <= MaxInt64
    ensures r.Some? ==> s != [] && NoneIn(s, IsSpace) && (IsDigit(s[0]) || s[0] == '+' || s[0] == '-')
    ensures r.Some? ==>
      var ds := if Signed(s) then s[1..] else s;
      && ds != [] && AllDigits(ds)
      && r.value == (if s[0] == '-' then -(DigitsValue(ds) as int) else DigitsValue(ds))
    ensures r.Some? && r.value < 0 ==> s[0] == '-'
  {
    var signed := Signed(s);
    var ds := if signed then s[1..] else s;
    if ds == [] || !AllDigits(ds) then None
    else
      assert forall i :: 0 <= i < |s| ==> s[i] == '+' || s[i] == '-' || IsDigit(s[i]) by {
        forall i | 0 <= i < |s| ensures s[i] == '+' || s[i] == '-' || IsDigit(s[i]) {
          if signed && i > 0 { assert s[i] == ds[i - 1]; }
        }
      }
      var v: int := DigitsValue(ds);
      var n := if signed && s[0] == '-' then -v else v;
      if MinInt64 <= n <= MaxInt64 then Some(n) else None
  }

  /** The decimal digit of `d`. */
  function DigitChar(d: nat): (c: char)
    requires d < 10
    ensures IsDigit(c) && c as int - '0' as int == d
  {
    ('0' as int + d) as char
  }

  /** The shortest decimal digits of `n`, as `%d` prints a natural number. */
  function Digits(n: nat): (s: string)
    ensures s != [] && AllDigits(s) && DigitsValue(s) == n
    ensures s[0] != '0' || n == 0
  {
    if n < 10 then [DigitChar(n)]
    else
      var s := Digits(n / 10) + [DigitChar(n % 10)];
      assert s[..|s| - 1] == Digits(n / 10);
      s
  }

  /** `strconv.Itoa`, the `%d` verb: an integer in decimal, with a minus sign when negative. */
  function Itoa(n: int): (s: string)
    ensures s != [] && NoneIn(s, IsSpace)
    ensures s[0] == '-' <==> n < 0
  {
    if n < 0 then "-" + Digits(-n) else Digits(n)
  }

  /** Reading back what `%d` prints gives the same number, for every 64-bit integer. */
  lemma AtoiOfItoa(n: int)
    requires MinInt64 <= n <= MaxInt64
    ensures Atoi(Itoa(n)) == Some(n)
  {
    var s := Itoa(n);
    if n < 0 {
      assert s[1..] == Digits(-n);
    }
  }

  /**
    The converse of `Atoi`'s contract: an optional sign followed by one or
    more decimal digits, leading zeros allowed, is accepted whenever its
    value fits a 64-bit `int`, so `+1`, `01` and `-0` all parse.
  */
  lemma AtoiOfSigned(sign: string, ds: string)
    requires sign == "" || sign == "+" || sign == "-"
    requires ds != [] && AllDigits(ds)
    requires MinInt64 <= (if sign == "-" then -(DigitsValue(ds) as int) else DigitsValue(ds)) <= MaxInt64
    ensures Atoi(sign + ds) == Some(if sign == "-" then -(DigitsValue(ds) as int) else DigitsValue(ds))
  {
    var s := sign + ds;
    if sign == "" {
      assert s == ds;
    } else {
      assert s[1..] == ds;
    }
  }
}
