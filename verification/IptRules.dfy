/** How `iptables -S` output becomes one rule per line: quoted values may hold
    raw newlines, and their words must not be read as flags. */
module IptRules {
  import opened Text

  // ------------------------------------------------------ the quote scanner

  /** Where a character of `iptables -S` output sits; Escaped is inside quotes,
      right after a backslash. */
  datatype Quoting = Outside | Inside | Escaped

  function Step(q: Quoting, c: char): Quoting {
    match q
    case Escaped => Inside
    case Inside => if c == '\\' then Escaped else if c == '"' then Outside else Inside
    case Outside => if c == '"' then Inside else Outside
  }

  /** The quoting state after s, started in state q. */
  function Run(q: Quoting, s: string): Quoting
    decreases s
  {
    if s == "" then q else Run(Step(q, s[0]), s[1..])
  }

  /** s with every newline inside quotes turned into a space. */
  function Spaced(q: Quoting, s: string): (r: string)
    ensures |r| == |s|
    decreases s
  {
    if s == "" then ""
    else [if s[0] == '\n' && q != Outside then ' ' else s[0]] + Spaced(Step(q, s[0]), s[1..])
  }

  /** One rule per line; output with an unterminated quote is kept as printed. */
  function Rules(out: string): string {
    if Run(Outside, out) == Outside then Spaced(Outside, out) else out
  }

  lemma {:induction false} RunOfConcat(q: Quoting, a: string, b: string)
    ensures Run(q, a + b) == Run(Run(q, a), b)
    ensures Spaced(q, a + b) == Spaced(q, a) + Spaced(Run(q, a), b)
    decreases a
  {
    if a == "" {
      assert a + b == b;
    } else {
      assert (a + b)[1..] == a[1..] + b;
      RunOfConcat(Step(q, a[0]), a[1..], b);
    }
  }

  /** iptRules: the output's bytes are copied and edited in place. */
  method CutRules(out: string) returns (rules: string)
    ensures rules == Rules(out)
  {
    var b := new char[|out|](i requires 0 <= i < |out| => out[i]);
    var quoted, escaped := false, false;
    assert b[..] == out;
    for i := 0 to |out|
      invariant escaped ==> quoted
      invariant Run(Outside, out[..i]) == if escaped then Escaped else if quoted then Inside else Outside
      invariant b[..i] == Spaced(Outside, out[..i])
      invariant b[i..] == out[i..]
    {
      var c := out[i];
      assert c == b[i..][0];
      RunOfConcat(Outside, out[..i], [c]);
      assert out[..i + 1] == out[..i] + [c];
      ghost var done := b[..i];
      if escaped {
        escaped := false;
        if c == '\n' {
          b[i] := ' ';
        }
      } else if quoted && c == '\\' {
        escaped := true;
      } else if c == '"' {
        quoted := !quoted;
      } else if quoted && c == '\n' {
        b[i] := ' ';
      }
      assert b[..i + 1] == done + [b[i]];
      assert b[i + 1..] == out[i + 1..];
    }
    assert out[..|out|] == out && b[..|out|] == b[..];
    rules := if quoted then out else b[..];
  }

  // ------------------------------------------------- what iptables prints

  /** A printed rule: flags and plain values, or a quoted value. */
  datatype Piece = Plain(text: string) | Quoted(value: string)

  /** xtables_save_string: only backslash and quote are escaped. */
  function Escape(value: string): string {
    if value == "" then "" else EscapeChar(value[0]) + Escape(value[1..])
  }

  function EscapeChar(c: char): string {
    if c == '\\' || c == '"' then ['\\', c] else [c]
  }

  function PrintPiece(p: Piece): string {
    match p
    case Plain(text) => text
    case Quoted(value) => "\"" + Escape(value) + "\""
  }

  function PrintRule(rule: seq<Piece>): string {
    if rule == [] then "" else PrintPiece(rule[0]) + PrintRule(rule[1..])
  }

  /** Plain text holds no quote and no newline; a quoted value is any text. */
  predicate Printable(rule: seq<Piece>) {
    forall i | 0 <= i < |rule| && rule[i].Plain? :: '"' !in rule[i].text && '\n' !in rule[i].text
  }

  /** A rule's text is whole: its quotes close and it has no newline outside them. */
  predicate Whole(rule: string) {
    Run(Outside, rule) == Outside && '\n' !in Spaced(Outside, rule)
  }

  /** `iptables -S`: every rule followed by a newline. */
  function Listing(rules: seq<string>): string {
    if rules == [] then "" else rules[0] + "\n" + Listing(rules[1..])
  }

  /** The rule on one line. */
  function Flat(rule: string): string {
    Spaced(Outside, rule)
  }

  function FlatAll(rules: seq<string>): (lines: seq<string>)
    ensures |lines| == |rules|
    ensures forall i | 0 <= i < |rules| :: lines[i] == Flat(rules[i])
  {
    seq(|rules|, i requires 0 <= i < |rules| => Flat(rules[i]))
  }

  predicate AllWhole(rules: seq<string>) {
    forall i | 0 <= i < |rules| :: Whole(rules[i])
  }

  /** An escaped character on one line. */
  function FlatChar(c: char): string {
    if c == '\n' then " " else EscapeChar(c)
  }

  lemma EscapedCharStaysInside(c: char)
    ensures Run(Inside, EscapeChar(c)) == Inside
    ensures Spaced(Inside, EscapeChar(c)) == FlatChar(c) && '\n' !in FlatChar(c)
  {
    if c == '\\' || c == '"' {
      assert ['\\', c][1..] == [c] && [c][1..] == "";
      assert Run(Escaped, [c]) == Inside && Spaced(Escaped, [c]) == [c];
    } else {
      assert [c][1..] == "";
    }
  }

  lemma {:induction false} EscapedStaysInside(value: string)
    ensures Run(Inside, Escape(value)) == Inside
    ensures '\n' !in Spaced(Inside, Escape(value))
  {
    if value != "" {
      EscapedStaysInside(value[1..]);
      EscapedCharStaysInside(value[0]);
      RunOfConcat(Inside, EscapeChar(value[0]), Escape(value[1..]));
    }
  }

  lemma {:induction false} PlainStaysOutside(text: string)
    requires '"' !in text
    ensures Run(Outside, text) == Outside && Spaced(Outside, text) == text
  {
    if text != "" {
      PlainStaysOutside(text[1..]);
      assert text == [text[0]] + text[1..];
    }
  }

  lemma PrintedPieceIsWhole(p: Piece)
    requires Printable([p])
    ensures Whole(PrintPiece(p))
  {
    match p
    case Plain(text) =>
      assert [p][0] == p;
      PlainStaysOutside(text);
    case Quoted(value) =>
      EscapedStaysInside(value);
      RunOfConcat(Outside, "\"", Escape(value));
      RunOfConcat(Outside, "\"" + Escape(value), "\"");
      assert Run(Inside, "\"") == Outside && Spaced(Inside, "\"") == "\"" == Spaced(Outside, "\"") && Run(Outside, "\"") == Inside by {
        assert "\""[1..] == "";
      }
  }

  lemma {:induction false} PrintedRuleIsWhole(rule: seq<Piece>)
    requires Printable(rule)
    ensures Whole(PrintRule(rule))
  {
    if rule != [] {
      PrintedPieceIsWhole(rule[0]);
      PrintedRuleIsWhole(rule[1..]);
      RunOfConcat(Outside, PrintPiece(rule[0]), PrintRule(rule[1..]));
    }
  }

  /** Cutting undoes listing: one line per rule, in order, whatever the quoted
      values hold, then the empty text after the last newline. */
  lemma {:induction false} RulesOfListing(rules: seq<string>)
    requires AllWhole(rules)
    ensures Split(Rules(Listing(rules)), '\n') == FlatAll(rules) + [""]
  {
    ListingIsWhole(rules);
    SplitOfSpacedListing(rules);
  }

  lemma {:induction false} ListingIsWhole(rules: seq<string>)
    requires AllWhole(rules)
    ensures Run(Outside, Listing(rules)) == Outside
  {
    if rules != [] {
      assert Whole(rules[0]);
      ListingIsWhole(rules[1..]);
      RunOfConcat(Outside, rules[0], "\n");
      RunOfConcat(Outside, rules[0] + "\n", Listing(rules[1..]));
      assert Run(Outside, "\n") == Outside by { assert "\n"[1..] == ""; }
    }
  }

  lemma {:induction false} SplitOfSpacedListing(rules: seq<string>)
    requires AllWhole(rules)
    ensures Split(Spaced(Outside, Listing(rules)), '\n') == FlatAll(rules) + [""]
  {
    if rules == [] {
      assert FlatAll(rules) + [""] == [""];
    } else {
      assert Whole(rules[0]);
      SplitOfSpacedListing(rules[1..]);
      FlatOfListed(rules[0], Listing(rules[1..]));
      SplitOfConcat(Flat(rules[0]), Spaced(Outside, Listing(rules[1..])), '\n');
      SplitOfOnePart(Flat(rules[0]), '\n');
      assert FlatAll(rules) == [Flat(rules[0])] + FlatAll(rules[1..]);
    }
  }

  lemma FlatOfListed(rule: string, rest: string)
    requires Run(Outside, rule) == Outside
    ensures Spaced(Outside, rule + "\n" + rest) == Flat(rule) + ['\n'] + Spaced(Outside, rest)
  {
    RunOfConcat(Outside, rule, "\n" + rest);
    SpacedOfCons(Outside, '\n', rest);
    assert rule + "\n" + rest == rule + ("\n" + rest) && "\n" + rest == ['\n'] + rest;
  }

  lemma {:induction false} OpenQuoteStaysOpen(q: Quoting, s: string)
    requires q != Outside && '"' !in s
    ensures Run(q, s) != Outside
    decreases s
  {
    if s != "" {
      OpenQuoteStaysOpen(Step(q, s[0]), s[1..]);
    }
  }

  /** Output whose last quote is never closed is kept as printed: no rule after it
      is swallowed into one line. */
  lemma UnterminatedIsKept(front: string, rest: string)
    requires Run(Outside, front) == Outside && '"' !in rest
    ensures Rules(front + "\"" + rest) == front + "\"" + rest
  {
    var out := front + "\"" + rest;
    assert out == front + ("\"" + rest) && ("\"" + rest)[1..] == rest;
    RunOfConcat(Outside, front, "\"" + rest);
    OpenQuoteStaysOpen(Inside, rest);
    assert Run(Outside, "\"" + rest) == Run(Inside, rest);
  }

  // --------------------------------------------------------------- blanking

  /** How many characters of s, the text after an opening quote, a quoted value
      spans with its closing quote: `(?:[^"\\]|\\.)*"`, whose dot is not a newline. */
  function QuoteEnd(s: string): (n: Option<nat>)
    ensures n.Some? ==> 1 <= n.value <= |s|
  {
    if s == "" then None
    else if s[0] == '"' then Some(1)
    else if s[0] == '\\' then
      if |s| < 2 || s[1] == '\n' then None else Past(2, QuoteEnd(s[2..]))
    else Past(1, QuoteEnd(s[1..]))
  }

  function Past(k: nat, n: Option<nat>): Option<nat> {
    match n case None => None case Some(m) => Some(m + k)
  }

  /** Every quoted value replaced by an empty one. */
  function Blank(s: string): string {
    if s == "" then ""
    else if s[0] == '"' && QuoteEnd(s[1..]).Some? then "\"\"" + Blank(s[1 + QuoteEnd(s[1..]).value..])
    else [s[0]] + Blank(s[1..])
  }

  /** The words of a rule line, its quoted values blanked. */
  function Words(line: string): seq<string> {
    Fields(Blank(line))
  }

  lemma {:induction false} BlankOfPlain(text: string, rest: string)
    requires '"' !in text
    ensures Blank(text + rest) == text + Blank(rest)
  {
    if text == "" {
      assert text + rest == rest;
    } else {
      assert (text + rest)[1..] == text[1..] + rest;
      BlankOfPlain(text[1..], rest);
    }
  }

  lemma {:induction false} QuoteEndOfEscaped(value: string, rest: string)
    ensures QuoteEnd(Spaced(Inside, Escape(value)) + "\"" + rest) == Some(|Escape(value)| + 1)
  {
    if value == "" {
      assert Spaced(Inside, "") + "\"" + rest == "\"" + rest;
    } else {
      var tail := Spaced(Inside, Escape(value[1..]));
      QuoteEndOfEscaped(value[1..], rest);
      EscapedCharStaysInside(value[0]);
      RunOfConcat(Inside, EscapeChar(value[0]), Escape(value[1..]));
      assert Spaced(Inside, Escape(value)) == FlatChar(value[0]) + tail;
      Regroup(FlatChar(value[0]), tail, "\"", rest);
      QuoteEndPastChar(value[0], tail + "\"" + rest);
    }
  }

  lemma Regroup(a: string, b: string, c: string, d: string)
    ensures a + b + c + d == a + (b + c + d)
  {}

  lemma QuoteEndPastChar(c: char, s: string)
    ensures QuoteEnd(FlatChar(c) + s) == Past(|EscapeChar(c)|, QuoteEnd(s))
  {
    assert (FlatChar(c) + s)[|EscapeChar(c)|..] == s;
  }

  lemma SpacedOfCons(q: Quoting, c: char, s: string)
    ensures Spaced(q, [c] + s) == [if c == '\n' && q != Outside then ' ' else c] + Spaced(Step(q, c), s)
  {
    assert ([c] + s)[1..] == s;
  }

  /** The rule with every quoted value emptied. */
  function Skeleton(rule: seq<Piece>): string {
    if rule == [] then ""
    else (if rule[0].Plain? then rule[0].text else "\"\"") + Skeleton(rule[1..])
  }

  /** Blanking a printed rule's line leaves its skeleton: no character of a
      quoted value survives. */
  lemma {:induction false} BlankOfPrinted(rule: seq<Piece>)
    requires Printable(rule)
    ensures Blank(Flat(PrintRule(rule))) == Skeleton(rule)
  {
    if rule != [] {
      var p, rest := rule[0], PrintRule(rule[1..]);
      BlankOfPrinted(rule[1..]);
      PrintedPieceIsWhole(p);
      RunOfConcat(Outside, PrintPiece(p), rest);
      assert Flat(PrintRule(rule)) == Flat(PrintPiece(p)) + Flat(rest);
      match p
      case Plain(text) =>
        PlainStaysOutside(text);
        BlankOfPlain(text, Flat(rest));
      case Quoted(value) =>
        FlatQuoted(value);
        BlankOfQuoted(value, Flat(rest));
    }
  }

  lemma FlatQuoted(value: string)
    ensures Flat("\"" + Escape(value) + "\"") == "\"" + Spaced(Inside, Escape(value)) + "\""
  {
    EscapedStaysInside(value);
    RunOfConcat(Inside, Escape(value), "\"");
    SpacedOfCons(Outside, '"', Escape(value) + "\"");
    SpacedOfCons(Inside, '"', "");
    assert "\"" + Escape(value) + "\"" == ['"'] + (Escape(value) + "\"");
    assert ['"'] + "" == "\"";
  }

  lemma BlankOfQuoted(value: string, rest: string)
    ensures Blank("\"" + Spaced(Inside, Escape(value)) + "\"" + rest) == "\"\"" + Blank(rest)
  {
    var e := Spaced(Inside, Escape(value));
    var line := "\"" + e + "\"" + rest;
    QuoteEndOfEscaped(value, rest);
    assert line[1..] == e + "\"" + rest;
    assert line[1 + |Escape(value)| + 1..] == rest;
  }

  lemma {:induction false} QuoteEndIgnoresTrailingSpace(s: string, c: char)
    requires IsSpace(c)
    ensures QuoteEnd(s + [c]) == QuoteEnd(s)
  {
    if s == "" {
      assert QuoteEnd(([c])[1..]) == None;
    } else if s[0] == '\\' {
      if |s| >= 2 {
        assert (s + [c])[2..] == s[2..] + [c];
        QuoteEndIgnoresTrailingSpace(s[2..], c);
      } else {
        assert (s + [c])[2..] == "";
      }
    } else {
      assert (s + [c])[1..] == s[1..] + [c];
      QuoteEndIgnoresTrailingSpace(s[1..], c);
    }
  }

  lemma {:induction false} BlankKeepsTrailingSpace(s: string, c: char)
    requires IsSpace(c)
    ensures Blank(s + [c]) == Blank(s) + [c]
  {
    if s == "" {
      assert ([c])[1..] == "";
    } else {
      assert (s + [c])[1..] == s[1..] + [c];
      QuoteEndIgnoresTrailingSpace(s[1..], c);
      if s[0] == '"' && QuoteEnd(s[1..]).Some? {
        var n := 1 + QuoteEnd(s[1..]).value;
        assert (s + [c])[n..] == s[n..] + [c];
        BlankKeepsTrailingSpace(s[n..], c);
      } else {
        BlankKeepsTrailingSpace(s[1..], c);
      }
    }
  }

  /** A line and its trimmed form have the same words. */
  lemma WordsOfTrimmed(line: string)
    ensures Words(TrimSpace(line)) == Words(line)
    ensures Fields(TrimSpace(line)) == Fields(line)
  {
    WordsOfLeftTrimmed(line);
    WordsOfRightTrimmed(TrimLeftSpace(line));
  }

  lemma {:induction false} WordsOfLeftTrimmed(line: string)
    ensures Words(TrimLeftSpace(line)) == Words(line)
    ensures Fields(TrimLeftSpace(line)) == Fields(line)
  {
    if line != "" && IsSpace(line[0]) {
      WordsOfLeftTrimmed(line[1..]);
    }
  }

  lemma {:induction false} WordsOfRightTrimmed(line: string)
    ensures Words(TrimRightSpace(line)) == Words(line)
    ensures Fields(TrimRightSpace(line)) == Fields(line)
  {
    if line != "" && IsSpace(line[|line| - 1]) {
      var front, c := line[..|line| - 1], line[|line| - 1];
      assert line == front + [c];
      WordsOfRightTrimmed(front);
      BlankKeepsTrailingSpace(front, c);
      FieldsIgnoreTrailingSpace(Blank(front), "", c);
      FieldsIgnoreTrailingSpace(front, "", c);
    }
  }

  /** Words read off a line with no quote in them: the line holds no quote, so
      blanking changed nothing. */
  lemma WordsOfUnquoted(line: string)
    requires forall f | f in Fields(line) :: '"' !in f
    ensures Words(line) == Fields(line)
  {
    if '"' in line {
      FieldsKeepText(line, "", '"');
    } else {
      BlankOfPlain(line, "");
      assert line + "" == line;
      assert line + Blank("") == line;
    }
  }
}
