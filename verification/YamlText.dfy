/** Text pieces that editing hostit.yml needs (app/config.go, app/snapshotwrite.go): lines,
    trimming, and YAML scalars together with a reader for them. */
module YamlText {
  import opened Transcript

  const NL := '\n'

  // ---- Lines ---------------------------------------------------------------------------

  function IndexOf(s: string, c: char): (i: nat)
    ensures i <= |s|
    ensures i < |s| ==> s[i] == c
    ensures i == |s| <==> c !in s
  {
    if s == "" || s[0] == c then 0 else 1 + IndexOf(s[1..], c)
  }

  function Split(s: string): (lines: seq<string>)
    ensures |lines| >= 1
    decreases |s|
  {
    var i := IndexOf(s, NL);
    if i == |s| then [s] else [s[..i]] + Split(s[i + 1..])
  }

  function Join(lines: seq<string>): string {
    if lines == [] then ""
    else if |lines| == 1 then lines[0]
    else lines[0] + ([NL] + Join(lines[1..]))
  }

  ghost predicate OneLiners(lines: seq<string>) { forall i :: 0 <= i < |lines| ==> NL !in lines[i] }

  lemma {:induction false} IndexAfter(a: string, b: string)
    requires NL !in a
    ensures IndexOf(a + ([NL] + b), NL) == |a|
  {
    if a == "" {
      assert a + ([NL] + b) == [NL] + b;
    } else {
      assert (a + ([NL] + b))[1..] == a[1..] + ([NL] + b);
      IndexAfter(a[1..], b);
    }
  }

  lemma SplitStep(a: string, b: string)
    requires NL !in a
    ensures Split(a + ([NL] + b)) == [a] + Split(b)
  {
    var s := a + ([NL] + b);
    IndexAfter(a, b);
    assert s[..|a|] == a && s[|a| + 1..] == b;
  }

  lemma {:induction false} SplitJoin(lines: seq<string>)
    requires lines != [] && OneLiners(lines)
    ensures Split(Join(lines)) == lines
  {
    assert NL !in lines[0];
    if |lines| > 1 {
      SplitJoin(lines[1..]);
      SplitStep(lines[0], Join(lines[1..]));
    }
  }

  lemma FirstPart(s: string) returns (a: string, b: string)
    requires NL in s
    ensures NL !in a && s == a + ([NL] + b) && |b| < |s|
  {
    var i := IndexOf(s, NL);
    a, b := s[..i], s[i + 1..];
    BeforeIndex(s);
    assert s == a + ([NL] + b);
  }

  lemma {:induction false} BeforeIndex(s: string)
    ensures NL !in s[..IndexOf(s, NL)]
  {
    if s != "" && s[0] != NL {
      BeforeIndex(s[1..]);
      var i := IndexOf(s[1..], NL);
      assert s[..i + 1] == [s[0]] + s[1..][..i];
    }
  }

  lemma {:induction false} JoinSplit(s: string)
    ensures Join(Split(s)) == s && OneLiners(Split(s))
    decreases |s|
  {
    if NL in s {
      var a, b := FirstPart(s);
      SplitStep(a, b);
      JoinSplit(b);
      assert ([a] + Split(b))[1..] == Split(b);
    }
  }

  lemma {:induction false} JoinConcat(a: seq<string>, b: seq<string>)
    requires a != [] && b != []
    ensures Join(a + b) == Join(a) + ([NL] + Join(b))
  {
    if |a| == 1 {
      assert (a + b)[1..] == b;
    } else {
      assert (a + b)[1..] == a[1..] + b;
      JoinConcat(a[1..], b);
      assert a[0] + ([NL] + (Join(a[1..]) + ([NL] + Join(b)))) == (a[0] + ([NL] + Join(a[1..]))) + ([NL] + Join(b));
    }
  }

  // ---- Trimming --------------------------------------------------------------------------

  /** The white space that trimming removes, and that ends a line's content. */
  predicate IsSpace(c: char) {
    c in {' ', '\t', '\n', '\U{0b}', '\U{0c}', '\r', '\U{85}', '\U{a0}', '\U{1680}', '\U{2028}', '\U{2029}', '\U{202f}',
          '\U{205f}', '\U{3000}'} || '\U{2000}' <= c <= '\U{200a}'
  }

  function TrimLeft(s: string): (t: string)
    ensures |t| <= |s| && (t != "" ==> !IsSpace(t[0]))
  {
    if s != "" && IsSpace(s[0]) then TrimLeft(s[1..]) else s
  }

  function TrimRight(s: string): (t: string)
    ensures t <= s && (t != "" ==> !IsSpace(t[|t| - 1]))
  {
    if s != "" && IsSpace(s[|s| - 1]) then TrimRight(s[..|s| - 1]) else s
  }

  function TrimSpace(s: string): string { TrimRight(TrimLeft(s)) }

  predicate Blank(l: string) { TrimSpace(l) == "" }

  /** Text with no space at either end. */
  predicate Tight(s: string) { s != "" && !IsSpace(s[0]) && !IsSpace(s[|s| - 1]) }

  lemma TrimmedTight(s: string)
    ensures TrimSpace(s) == "" || Tight(TrimSpace(s))
  {
    var t := TrimLeft(s);
    if TrimRight(t) != "" { assert TrimRight(t)[0] == t[0]; }
  }

  lemma TrimIndented(s: string)
    requires Tight(s)
    ensures TrimSpace(s) == s && TrimSpace(" " + s) == s && TrimSpace("  " + s) == s
  {
    assert (" " + s)[1..] == s && ("  " + s)[1..] == " " + s;
  }

  // ---- Scalars -----------------------------------------------------------------------------

  const BACKSLASH := '\\'
  const QUOTE := '"'

  function ReplaceAll(s: string, c: char, with: string): string {
    if s == "" then "" else (if s[0] == c then with else [s[0]]) + ReplaceAll(s[1..], c, with)
  }

  /** The source's two passes: backslashes first, then quotes. */
  function YamlQuote(s: string): string {
    [QUOTE] + (ReplaceAll(ReplaceAll(s, BACKSLASH, [BACKSLASH, BACKSLASH]), QUOTE, [BACKSLASH, QUOTE]) + [QUOTE])
  }

  /** One pass over the characters. */
  function Escape(s: string): string {
    if s == "" then ""
    else (if s[0] == BACKSLASH || s[0] == QUOTE then [BACKSLASH, s[0]] else [s[0]]) + Escape(s[1..])
  }

  lemma {:induction false} ReplaceConcat(a: string, b: string, c: char, with: string)
    ensures ReplaceAll(a + b, c, with) == ReplaceAll(a, c, with) + ReplaceAll(b, c, with)
  {
    if a == "" {
      assert a + b == b;
    } else {
      assert (a + b)[1..] == a[1..] + b;
      ReplaceConcat(a[1..], b, c, with);
    }
  }

  lemma ReplaceOne(d: char, c: char, with: string)
    ensures ReplaceAll([d], c, with) == if d == c then with else [d]
  {
    assert [d][1..] == "";
    assert ReplaceAll([d], c, with) == (if d == c then with else [d]) + "";
  }

  lemma {:induction false} TwoPassesEscape(s: string)
    ensures ReplaceAll(ReplaceAll(s, BACKSLASH, [BACKSLASH, BACKSLASH]), QUOTE, [BACKSLASH, QUOTE]) == Escape(s)
  {
    if s != "" {
      TwoPassesEscape(s[1..]);
      var first := if s[0] == BACKSLASH then [BACKSLASH, BACKSLASH] else [s[0]];
      var rest := ReplaceAll(s[1..], BACKSLASH, [BACKSLASH, BACKSLASH]);
      ReplaceConcat(first, rest, QUOTE, [BACKSLASH, QUOTE]);
      ReplaceOne(s[0], QUOTE, [BACKSLASH, QUOTE]);
      if s[0] == BACKSLASH {
        assert first == [BACKSLASH] + [BACKSLASH];
        ReplaceConcat([BACKSLASH], [BACKSLASH], QUOTE, [BACKSLASH, QUOTE]);
      }
    }
  }

  /** Reading up to the closing quote of a double-quoted scalar (section 7.3.1 of YAML 1.2.2);
      only the two escapes above occur. What follows the quote must be empty. */
  function ReadQuoted(s: string): Option<string> {
    if s == "" then None
    else if s[0] == QUOTE then (if |s| == 1 then Some("") else None)
    else if s[0] == BACKSLASH then
      (if |s| > 1 && (s[1] == BACKSLASH || s[1] == QUOTE) then Cons(s[1], ReadQuoted(s[2..])) else None)
    else Cons(s[0], ReadQuoted(s[1..]))
  }

  function Cons(c: char, rest: Option<string>): Option<string> {
    if rest.Some? then Some([c] + rest.value) else None
  }

  lemma {:induction false} ReadEscaped(s: string)
    ensures ReadQuoted(Escape(s) + [QUOTE]) == Some(s)
  {
    if s != "" {
      ReadEscaped(s[1..]);
      var e := Escape(s) + [QUOTE];
      var rest := Escape(s[1..]) + [QUOTE];
      if s[0] == BACKSLASH || s[0] == QUOTE {
        assert e == [BACKSLASH, s[0]] + rest && e[2..] == rest;
      } else {
        assert e == [s[0]] + rest && e[1..] == rest;
      }
      assert [s[0]] + s[1..] == s;
    }
  }

  predicate Contains(s: string, a: char, b: char) { exists i :: 0 <= i < |s| - 1 && s[i] == a && s[i + 1] == b }

  const INDICATORS := {'-', '?', ':', ',', '[', ']', '{', '}', '#', '&', '*', '!', '|', '>', '\'', '"', '%', '@', '`'}

  predicate NeedsQuotes(s: string)
    requires s != ""
  {
    s[0] in INDICATORS || Contains(s, ':', ' ') || Contains(s, ' ', '#') || TrimSpace(s) != s
  }

  function YamlScalar(s: string): string {
    if s == "" then [QUOTE, QUOTE] else if NeedsQuotes(s) then YamlQuote(s) else s
  }

  const NULL_WORDS := {"~", "null", "Null", "NULL"}

  /** Reading the value of a key that stands on its own line. A plain scalar (section 7.3.3 of
      YAML 1.2.2) must not start with an indicator, hold a colon before a blank or at its end,
      or a comment after a blank; a null reads as the empty string. */
  function ReadScalar(s: string): Option<string> {
    if s != "" && s[0] == QUOTE then ReadQuoted(s[1..])
    else if s in NULL_WORDS then Some("")
    else if s == "" || s[0] in INDICATORS || s[|s| - 1] == ':' || Contains(s, ':', ' ') || Contains(s, ':', '\t')
            || Contains(s, ' ', '#') || Contains(s, '\t', '#') then None
    else Some(s)
  }

  /** Quoting is undone by reading, for every text. */
  lemma QuoteRoundTrip(s: string)
    ensures ReadScalar(YamlQuote(s)) == Some(s)
  {
    TwoPassesEscape(s);
    ReadEscaped(s);
    assert YamlQuote(s)[1..] == Escape(s) + [QUOTE];
  }

  /** The values that are left plain although they do not read back. */
  predicate PlainTrap(s: string) {
    && s != "" && !NeedsQuotes(s)
    && (s in NULL_WORDS || s[|s| - 1] == ':' || Contains(s, ':', '\t') || Contains(s, '\t', '#'))
  }

  /** The source quotes "only when a plain scalar would not survive the round trip". Exactly
      when a value survives: */
  lemma ScalarRoundTripIff(s: string)
    ensures ReadScalar(YamlScalar(s)) == Some(s) <==> !PlainTrap(s)
  {
    if s == "" {
      assert YamlScalar(s)[1..] == [QUOTE];
    } else if NeedsQuotes(s) {
      QuoteRoundTrip(s);
    }
  }

  lemma {:induction false} ReadQuotedShorter(s: string)
    ensures ReadQuoted(s).Some? ==> |ReadQuoted(s).value| < |s|
    decreases |s|
  {
    if s != "" && s[0] != QUOTE {
      if s[0] == BACKSLASH {
        if |s| > 1 { ReadQuotedShorter(s[2..]); }
      } else {
        ReadQuotedShorter(s[1..]);
      }
    }
  }

  lemma ReadScalarIs(s: string)
    ensures ReadScalar(s).Some? ==> ReadScalar(s).value == s || |ReadScalar(s).value| < |s|
  {
    if s != "" { ReadQuotedShorter(s[1..]); }
  }

  lemma TrimShorter(s: string)
    ensures |TrimSpace(s)| <= |s|
  {
  }

  /** It does so only then: a value that is quoted would not read back if it stood there plain. */
  lemma QuotedOnlyIfNeeded(s: string)
    ensures YamlScalar(s) == s || (s == "" && YamlScalar(s) == "\"\"") || YamlScalar(s) == YamlQuote(s)
    ensures s != "" && YamlScalar(s) != s ==> ReadScalar(TrimSpace(s)) != Some(s)
  {
    if s != "" && NeedsQuotes(s) {
      TrimShorter(s);
      ReadScalarIs(TrimSpace(s));
      if TrimSpace(s) == s && s[0] == QUOTE { ReadQuotedShorter(s[1..]); }
    }
  }

  /** A command that ends in a colon, such as a shell's no-op, is one that does not. */
  lemma ColonCommandLost()
    ensures PlainTrap("true && :") && ReadScalar(YamlScalar("true && :")) != Some("true && :")
  {
    var s := "true && :";
    assert s[8] == ':' && |s| == 9;
    assert forall i :: 0 <= i < |s| ==> s[i] != '#' && (s[i] == ':' ==> i == 8);
    assert Tight(s);
    TrimIndented(s);
    ScalarRoundTripIff(s);
  }

  lemma ScalarTight(s: string)
    requires s != ""
    ensures Tight(YamlScalar(s))
  {
    if NeedsQuotes(s) {
      var q := YamlQuote(s);
      assert q[0] == QUOTE && q[|q| - 1] == QUOTE;
    } else {
      TrimmedTight(s);
    }
  }

  lemma {:induction false} ReplaceKeepsOut(s: string, c: char, with: string)
    requires NL !in s && NL !in with
    ensures NL !in ReplaceAll(s, c, with)
  {
    if s != "" { ReplaceKeepsOut(s[1..], c, with); }
  }

  lemma QuoteOneLine(s: string)
    requires NL !in s
    ensures NL !in YamlQuote(s)
  {
    ReplaceKeepsOut(s, BACKSLASH, [BACKSLASH, BACKSLASH]);
    ReplaceKeepsOut(ReplaceAll(s, BACKSLASH, [BACKSLASH, BACKSLASH]), QUOTE, [BACKSLASH, QUOTE]);
  }

  lemma ScalarOneLine(s: string)
    requires NL !in s
    ensures NL !in YamlScalar(s)
  {
    QuoteOneLine(s);
  }
}
