/** The string operations of Go's `strings` and `strconv` packages the models
    are written in, with the few laws their proofs need. */
module Text {

  datatype Option<+T> = None | Some(value: T)

  /** unicode.IsSpace. */
  predicate IsSpace(c: char) {
    || '\U{0009}' <= c <= '\U{000D}' || c == ' ' || c == '\U{0085}' || c == '\U{00A0}' || c == '\U{1680}'
    || '\U{2000}' <= c <= '\U{200A}' || c == '\U{2028}' || c == '\U{2029}' || c == '\U{202F}' || c == '\U{205F}' || c == '\U{3000}'
  }

  // ---------------------------------------------------------------- trimming

  function TrimLeftSpace(s: string): string {
    if s != "" && IsSpace(s[0]) then TrimLeftSpace(s[1..]) else s
  }

  function TrimRightSpace(s: string): string {
    if s != "" && IsSpace(s[|s| - 1]) then TrimRightSpace(s[..|s| - 1]) else s
  }

  /** strings.TrimSpace. */
  function TrimSpace(s: string): string {
    TrimRightSpace(TrimLeftSpace(s))
  }

  /** strings.TrimRight for a set of characters. */
  function TrimRightOf(s: string, cut: set<char>): string {
    if s != "" && s[|s| - 1] in cut then TrimRightOf(s[..|s| - 1], cut) else s
  }

  predicate Trimmed(s: string) {
    s == "" || (!IsSpace(s[0]) && !IsSpace(s[|s| - 1]))
  }

  lemma TrimLeftEnds(s: string)
    ensures TrimLeftSpace(s) == "" || !IsSpace(TrimLeftSpace(s)[0])
  {}

  lemma TrimRightKeepsFirst(s: string)
    requires s == "" || !IsSpace(s[0])
    ensures TrimRightSpace(s) == s == "" || (TrimRightSpace(s) != "" && TrimRightSpace(s)[0] == s[0])
    ensures Trimmed(TrimRightSpace(s))
  {
    if s != "" && IsSpace(s[|s| - 1]) {
      TrimRightKeepsFirst(s[..|s| - 1]);
    }
  }

  lemma TrimSpaceTrims(s: string)
    ensures Trimmed(TrimSpace(s))
  {
    TrimLeftEnds(s);
    TrimRightKeepsFirst(TrimLeftSpace(s));
  }

  lemma TrimmedIsFixed(s: string)
    requires Trimmed(s)
    ensures TrimSpace(s) == s
  {}

  lemma TrimIsIdempotent(s: string)
    ensures TrimSpace(TrimSpace(s)) == TrimSpace(s)
  {
    TrimSpaceTrims(s);
    TrimmedIsFixed(TrimSpace(s));
  }

  // ------------------------------------------------------- splitting, joining

  /** strings.Split on a one-character separator: never empty. */
  function Split(s: string, sep: char): (parts: seq<string>)
    ensures |parts| >= 1
  {
    if s == "" then [""]
    else
      var rest := Split(s[1..], sep);
      if s[0] == sep then [""] + rest else [[s[0]] + rest[0]] + rest[1..]
  }

  /** strings.Join on a one-character separator. */
  function Join(parts: seq<string>, sep: char): string {
    if parts == [] then ""
    else if |parts| == 1 then parts[0]
    else parts[0] + [sep] + Join(parts[1..], sep)
  }

  lemma {:induction false} SplitOfConcat(a: string, b: string, sep: char)
    ensures Split(a + [sep] + b, sep) == Split(a, sep) + Split(b, sep)
  {
    var s := a + [sep] + b;
    if a == "" {
      assert s[1..] == b;
    } else {
      SplitOfConcat(a[1..], b, sep);
      assert s[0] == a[0] && s[1..] == a[1..] + [sep] + b;
      SplitHead(a, sep, Split(b, sep));
      SplitHead(s, sep, []);
    }
  }

  lemma SplitHead(s: string, sep: char, more: seq<string>)
    requires s != ""
    ensures Split(s, sep) + more == OnFront(s[0], sep, Split(s[1..], sep) + more)
  {}

  function OnFront(c: char, sep: char, parts: seq<string>): seq<string>
    requires parts != []
  {
    if c == sep then [""] + parts else [[c] + parts[0]] + parts[1..]
  }

  lemma {:induction false} SplitOfOnePart(s: string, sep: char)
    requires sep !in s
    ensures Split(s, sep) == [s]
  {
    if s != "" {
      SplitOfOnePart(s[1..], sep);
      assert s == [s[0]] + s[1..];
    }
  }

  lemma {:induction false} SplitPartsHoldNoSeparator(s: string, sep: char)
    ensures forall part | part in Split(s, sep) :: sep !in part
  {
    if s != "" {
      SplitPartsHoldNoSeparator(s[1..], sep);
    }
  }

  lemma {:induction false} JoinOfSplit(s: string, sep: char)
    ensures Join(Split(s, sep), sep) == s
  {
    if s != "" {
      JoinOfSplit(s[1..], sep);
      var rest := Split(s[1..], sep);
      if s[0] == sep {
        assert ([""] + rest)[1..] == rest;
      } else {
        var parts := [[s[0]] + rest[0]] + rest[1..];
        assert parts[1..] == rest[1..];
      }
    }
  }

  lemma {:induction false} SplitOfJoin(parts: seq<string>, sep: char)
    requires parts != [] && forall part | part in parts :: sep !in part
    ensures Split(Join(parts, sep), sep) == parts
  {
    SplitOfOnePart(parts[0], sep);
    if |parts| > 1 {
      SplitOfJoin(parts[1..], sep);
      SplitOfConcat(parts[0], Join(parts[1..], sep), sep);
      assert parts == [parts[0]] + parts[1..];
    }
  }

  /** strings.Cut on a one-character separator: the text before the first one,
      the text after it, and whether there is one. */
  function Cut(s: string, sep: char): (string, string, bool) {
    var parts := Split(s, sep);
    if |parts| == 1 then (s, "", false) else (parts[0], Join(parts[1..], sep), true)
  }

  lemma CutAtFirst(a: string, b: string, sep: char)
    requires sep !in a
    ensures Cut(a + [sep] + b, sep) == (a, b, true)
  {
    SplitOfConcat(a, b, sep);
    SplitOfOnePart(a, sep);
    JoinOfSplit(b, sep);
    var parts := Split(a + [sep] + b, sep);
    assert parts[1..] == Split(b, sep);
  }

  // ------------------------------------------------------------------- fields

  /** strings.Fields: the words between runs of white space. */
  function Fields(s: string): seq<string> {
    FieldsFrom(s, "")
  }

  /** Fields of s when its first word continues the non-space text word. */
  function FieldsFrom(s: string, word: string): seq<string> {
    if s == "" then if word == "" then [] else [word]
    else if !IsSpace(s[0]) then FieldsFrom(s[1..], word + [s[0]])
    else (if word == "" then [] else [word]) + FieldsFrom(s[1..], "")
  }

  lemma {:induction false} FieldsKeepText(s: string, word: string, c: char)
    requires !IsSpace(c) && (c in s || c in word)
    ensures exists f | f in FieldsFrom(s, word) :: c in f
  {
    if s != "" {
      if !IsSpace(s[0]) {
        FieldsKeepText(s[1..], word + [s[0]], c);
      } else if c in word {
        assert word in FieldsFrom(s, word);
      } else {
        FieldsKeepText(s[1..], "", c);
        var f :| f in FieldsFrom(s[1..], "") && c in f;
        assert f in FieldsFrom(s, word);
      }
    } else {
      assert word in FieldsFrom(s, word);
    }
  }

  lemma {:induction false} FieldsFromWord(w: string, s: string, word: string)
    requires forall c | c in w :: !IsSpace(c)
    ensures FieldsFrom(w + s, word) == FieldsFrom(s, word + w)
  {
    if w == "" {
      assert w + s == s && word + w == word;
    } else {
      assert (w + s)[1..] == w[1..] + s;
      FieldsFromWord(w[1..], s, word + [w[0]]);
      assert word + [w[0]] + w[1..] == word + w;
    }
  }

  /** Words a tool prints with one space between them. */
  predicate AreWords(words: seq<string>) {
    forall w | w in words :: IsWord(w)
  }

  predicate IsWord(w: string) {
    w != "" && forall c | c in w :: !IsSpace(c)
  }

  lemma {:induction false} FieldsOfJoin(words: seq<string>)
    requires AreWords(words)
    ensures Fields(Join(words, ' ')) == words
  {
    assert words != [] ==> IsWord(words[0]);
    if |words| == 1 {
      FieldsFromWord(words[0], "", "");
      assert words[0] + "" == words[0] && "" + words[0] == words[0];
    } else if |words| > 1 {
      var tail := " " + Join(words[1..], ' ');
      assert AreWords(words[1..]);
      FieldsOfJoin(words[1..]);
      FieldsFromWord(words[0], tail, "");
      assert words[0] + [' '] + Join(words[1..], ' ') == words[0] + tail;
      assert "" + words[0] == words[0];
      assert tail[1..] == Join(words[1..], ' ');
      assert words == [words[0]] + words[1..];
    }
  }

  lemma {:induction false} FieldsIgnoreTrailingSpace(s: string, word: string, c: char)
    requires IsSpace(c)
    ensures FieldsFrom(s + [c], word) == FieldsFrom(s, word)
  {
    if s == "" {
      assert (s + [c])[1..] == "";
    } else {
      assert (s + [c])[1..] == s[1..] + [c];
      FieldsIgnoreTrailingSpace(s[1..], if IsSpace(s[0]) then "" else word + [s[0]], c);
    }
  }

  // ------------------------------------------------------------------ prefixes

  predicate HasPrefix(s: string, prefix: string) {
    |prefix| <= |s| && s[..|prefix|] == prefix
  }

  predicate HasSuffix(s: string, suffix: string) {
    |suffix| <= |s| && s[|s| - |suffix|..] == suffix
  }

  /** strings.Contains. */
  predicate Contains(s: string, part: string) {
    exists i | 0 <= i <= |s| :: HasPrefix(s[i..], part)
  }

  /** slices.Index on words; |words| when absent. */
  function IndexOf(words: seq<string>, w: string): (i: nat)
    ensures i <= |words|
    ensures i < |words| ==> words[i] == w
    ensures forall j | 0 <= j < i :: words[j] != w
  {
    if words == [] then 0 else if words[0] == w then 0 else 1 + IndexOf(words[1..], w)
  }

  lemma IndexIs(words: seq<string>, w: string, i: nat)
    requires i < |words| && words[i] == w && forall j | 0 <= j < i :: words[j] != w
    ensures IndexOf(words, w) == i
  {}

  // ------------------------------------------------------------------ numerals

  predicate IsDigit(c: char) {
    '0' <= c <= '9'
  }

  predicate IsDigits(s: string) {
    s != "" && forall c | c in s :: IsDigit(c)
  }

  /** strconv.Itoa of a natural number. */
  function Itoa(n: nat): (s: string)
    ensures IsDigits(s)
  {
    var last := ['0' + (n % 10) as char];
    if n < 10 then last else Itoa(n / 10) + last
  }

  function DigitsValue(s: string): nat
    requires forall c | c in s :: IsDigit(c)
  {
    if s == "" then 0
    else
      assert IsDigit(s[|s| - 1]);
      10 * DigitsValue(s[..|s| - 1]) + (s[|s| - 1] as int - '0' as int)
  }

  const MAX_INT64: int := 0x7fff_ffff_ffff_ffff

  /** strconv.Atoi: an optional sign and decimal digits within an int64, as the
      host is 64-bit; None is its error. */
  function Atoi(s: string): Option<int> {
    var signed := s != "" && (s[0] == '-' || s[0] == '+');
    var digits := if signed then s[1..] else s;
    if !IsDigits(digits) then None
    else
      var v: int := DigitsValue(digits);
      var n: int := if signed && s[0] == '-' then -v else v;
      if -MAX_INT64 - 1 <= n <= MAX_INT64 then Some(n) else None
  }

  lemma {:induction false} DigitsOfItoa(n: nat)
    ensures DigitsValue(Itoa(n)) == n
  {
    if n >= 10 {
      DigitsOfItoa(n / 10);
      assert Itoa(n)[..|Itoa(n)| - 1] == Itoa(n / 10);
    }
  }

  lemma ItoaStartsWithDigit(n: nat)
    ensures IsDigit(Itoa(n)[0])
  {
    assert Itoa(n)[0] in Itoa(n);
  }

  lemma AtoiOfItoa(n: nat)
    requires n <= MAX_INT64
    ensures Atoi(Itoa(n)) == Some(n)
  {
    DigitsOfItoa(n);
    var s := Itoa(n);
    assert IsDigit(s[0]);
  }
}
