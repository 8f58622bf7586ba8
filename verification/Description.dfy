/** `SetDescription` (app/config.go): the first description line is replaced, or one is put in
    front. */
module Description {
  import opened Transcript
  import opened YamlText

  const DESCRIPTION_KEY := "description:"

  predicate IsDescription(l: string) { DESCRIPTION_KEY <= TrimSpace(l) }

  function LineOf(desc: string): string { DESCRIPTION_KEY + (" " + YamlQuote(desc)) }

  /** The first description line, or the number of lines when there is none. */
  function DescriptionAt(lines: seq<string>): (i: nat)
    ensures i <= |lines| && (i < |lines| ==> IsDescription(lines[i]))
  {
    if lines == [] || IsDescription(lines[0]) then 0 else 1 + DescriptionAt(lines[1..])
  }

  function SetText(content: string, line: string): string {
    var lines := Split(content);
    var i := DescriptionAt(lines);
    if i < |lines| then Join(lines[i := line])
    else if TrimSpace(content) == "" then line + [NL]
    else line + ([NL] + content)
  }

  function SetDesc(content: string, desc: string): string { SetText(content, LineOf(desc)) }

  /** The text that is written: in front of a document that has none, on its own in a blank one, and
      in place of the first description line otherwise. */
  lemma DescriptionText(content: string, desc: string)
    ensures var lines, text := Split(content), "description: \"" + (Escape(desc) + "\"");
            var i := DescriptionAt(lines);
            SetDesc(content, desc) ==
            if i < |lines| then Join(lines[..i] + ([text] + lines[i + 1..]))
            else if TrimSpace(content) == "" then text + "\n"
            else text + ("\n" + content)
  {
    var lines := Split(content);
    var i := DescriptionAt(lines);
    LineText(desc);
    if i < |lines| { UpdateIs(lines, i, LineOf(desc)); }
  }

  lemma LineText(desc: string)
    ensures LineOf(desc) == "description: \"" + (Escape(desc) + "\"")
  {
    TwoPassesEscape(desc);
    FrontText(Escape(desc) + "\"");
  }

  lemma FrontText(rest: string)
    ensures "description:" + (" " + ([QUOTE] + rest)) == "description: \"" + rest
  {
    assert "description:" + " " + [QUOTE] == "description: \"";
  }

  lemma UpdateIs(lines: seq<string>, i: nat, line: string)
    requires i < |lines|
    ensures lines[i := line] == lines[..i] + ([line] + lines[i + 1..])
  {
  }

  lemma {:induction false} DescriptionAtIs(lines: seq<string>, i: nat)
    requires i <= |lines| && forall j :: 0 <= j < i ==> !IsDescription(lines[j])
    requires i < |lines| ==> IsDescription(lines[i])
    ensures DescriptionAt(lines) == i
  {
    if i > 0 { DescriptionAtIs(lines[1..], i - 1); }
  }

  lemma {:induction false} BeforeDescription(lines: seq<string>)
    ensures forall j :: 0 <= j < DescriptionAt(lines) ==> !IsDescription(lines[j])
    ensures DescriptionAt(lines) < |lines| ==> IsDescription(lines[DescriptionAt(lines)])
  {
    if lines != [] && !IsDescription(lines[0]) {
      BeforeDescription(lines[1..]);
      forall j | 0 <= j < DescriptionAt(lines) ensures !IsDescription(lines[j]) {
        if j > 0 { assert lines[j] == lines[1..][j - 1]; }
      }
    }
  }

  method SetDescription(content: string, desc: string) returns (out: string)
    ensures out == SetDesc(content, desc)
  {
    var line := LineOf(desc);
    var lines := Split(content);
    for i := 0 to |lines|
      invariant forall j :: 0 <= j < i ==> !IsDescription(lines[j])
    {
      if DESCRIPTION_KEY <= TrimSpace(lines[i]) {
        DescriptionAtIs(lines, i);
        return Join(lines[i := line]);
      }
    }
    DescriptionAtIs(lines, |lines|);
    if TrimSpace(content) == "" {
      return line + [NL];
    }
    return line + ([NL] + content);
  }

  // ---- Its first line is found again -----------------------------------------------------------

  lemma KeyTight()
    ensures Tight(DESCRIPTION_KEY) && NL !in DESCRIPTION_KEY && |DESCRIPTION_KEY| == 12
  {
    assert DESCRIPTION_KEY[0] == 'd' && DESCRIPTION_KEY[11] == ':' && |DESCRIPTION_KEY| == 12;
  }

  lemma {:induction false} TrimRightKeeps(p: string, t: string)
    requires Tight(p) && p <= t
    ensures p <= TrimRight(t)
  {
    if t != "" && IsSpace(t[|t| - 1]) {
      assert t[|p| - 1] == p[|p| - 1];
      TrimRightKeeps(p, t[..|t| - 1]);
    }
  }

  lemma TrimKeeps(p: string, t: string)
    requires Tight(p) && p <= t
    ensures p <= TrimSpace(t)
  {
    assert t[0] == p[0];
    TrimRightKeeps(p, t);
  }

  lemma {:induction false} IndexPast(p: string, t: string)
    requires NL !in p && p <= t
    ensures IndexOf(t, NL) >= |p|
  {
    if p != "" {
      assert t[0] == p[0] && p[1..] <= t[1..];
      IndexPast(p[1..], t[1..]);
    }
  }

  /** The first physical line of a text that starts with the key is a description line. */
  lemma FirstIsDescription(t: string)
    requires DESCRIPTION_KEY <= t
    ensures IsDescription(Split(t)[0])
  {
    KeyTight();
    IndexPast(DESCRIPTION_KEY, t);
    var first := Split(t)[0];
    assert first == t[..IndexOf(t, NL)];
    assert DESCRIPTION_KEY <= first;
    TrimKeeps(DESCRIPTION_KEY, first);
  }

  lemma {:induction false} SplitConcat(a: string, b: string)
    ensures Split(a + ([NL] + b)) == Split(a) + Split(b)
  {
    JoinSplit(a);
    JoinSplit(b);
    JoinConcat(Split(a), Split(b));
    SplitJoin(Split(a) + Split(b));
  }

  /** A written document has a description line, at the same place as before. */
  lemma WrittenHasOne(content: string, desc: string)
    ensures DescriptionAt(Split(SetDesc(content, desc))) < |Split(SetDesc(content, desc))|
  {
    var line, lines := LineOf(desc), Split(content);
    var i := DescriptionAt(lines);
    if i == |lines| {
      FirstIsDescription(SetDesc(content, desc));
    } else if i == 0 {
      if |lines| == 1 { assert Join(lines[0 := line]) == line; }
      FirstIsDescription(SetDesc(content, desc));
    } else {
      ReplacedText(lines, i, line);
      var tail := if i + 1 == |lines| then line else line + ([NL] + Join(lines[i + 1..]));
      SplitConcat(Join(lines[..i]), tail);
      FirstIsDescription(tail);
      HasOne(Split(Join(lines[..i])), Split(tail));
    }
  }

  lemma ReplacedText(lines: seq<string>, i: nat, line: string)
    requires 0 < i < |lines|
    ensures Join(lines[i := line]) ==
            Join(lines[..i]) + ([NL] + (if i + 1 == |lines| then line else line + ([NL] + Join(lines[i + 1..]))))
  {
    var tail := [line] + lines[i + 1..];
    assert lines[i := line] == lines[..i] + tail;
    JoinConcat(lines[..i], tail);
    assert tail[1..] == lines[i + 1..];
  }

  lemma {:induction false} HasOne(a: seq<string>, b: seq<string>)
    requires b != [] && IsDescription(b[0])
    ensures DescriptionAt(a + b) < |a + b|
  {
    if a == [] {
      assert a + b == b;
    } else {
      assert (a + b)[1..] == a[1..] + b;
      HasOne(a[1..], b);
    }
  }

  // ---- The last write wins ------------------------------------------------------------------------

  lemma LineOneLine(desc: string)
    requires NL !in desc
    ensures NL !in LineOf(desc) && IsDescription(LineOf(desc))
  {
    KeyTight();
    QuoteOneLine(desc);
    TrimKeeps(DESCRIPTION_KEY, LineOf(desc));
  }

  lemma ReplacedFirst(lines: seq<string>, i: nat, line: string)
    requires i == DescriptionAt(lines) < |lines| && IsDescription(line)
    ensures DescriptionAt(lines[i := line]) == i
  {
    BeforeDescription(lines);
    DescriptionAtIs(lines[i := line], i);
  }

  /** The lines after a one-line description is written: line `k` is the description's, and
      any other description would have been written there too. */
  lemma WrittenLines(content: string, line: string) returns (all: seq<string>, k: nat)
    requires NL !in line && IsDescription(line)
    ensures k < |all| && all[k] == line && Split(SetText(content, line)) == all && DescriptionAt(all) == k
    ensures forall other :: Join(all[k := other]) == SetText(content, other)
  {
    var lines := Split(content);
    k := DescriptionAt(lines);
    JoinSplit(content);
    if k < |lines| {
      all := lines[k := line];
      WrittenInPlace(content, line, lines, k, all);
    } else {
      all, k := WrittenInFront(content, line);
    }
  }

  lemma WrittenInPlace(content: string, line: string, lines: seq<string>, k: nat, all: seq<string>)
    requires NL !in line && IsDescription(line)
    requires lines == Split(content) && k == DescriptionAt(lines) < |lines| && all == lines[k := line]
    ensures Split(SetText(content, line)) == all && DescriptionAt(all) == k
    ensures forall other :: Join(all[k := other]) == SetText(content, other)
  {
    JoinSplit(content);
    SplitJoin(all);
    ReplacedFirst(lines, k, line);
    forall other ensures Join(all[k := other]) == SetText(content, other) {
      assert all[k := other] == lines[k := other];
      TextInPlace(content, other, lines, k);
    }
    TextInPlace(content, line, lines, k);
  }

  lemma TextInPlace(content: string, line: string, lines: seq<string>, k: nat)
    requires lines == Split(content) && k == DescriptionAt(lines) < |lines|
    ensures SetText(content, line) == Join(lines[k := line])
  {
  }

  lemma WrittenInFront(content: string, line: string) returns (all: seq<string>, k: nat)
    requires NL !in line && IsDescription(line) && DescriptionAt(Split(content)) == |Split(content)|
    ensures k < |all| && all[k] == line && Split(SetText(content, line)) == all && DescriptionAt(all) == k
    ensures forall other :: Join(all[k := other]) == SetText(content, other)
  {
    var rest := if TrimSpace(content) == "" then "" else content;
    all, k := [line] + Split(rest), 0;
    forall other ensures Join(all[0 := other]) == SetText(content, other) {
      TextInFront(content, other);
      JoinFront(other, rest);
      assert all[0 := other] == [other] + Split(rest);
    }
    TextInFront(content, line);
    SplitStep(line, rest);
  }

  lemma TextInFront(content: string, line: string)
    requires DescriptionAt(Split(content)) == |Split(content)|
    ensures SetText(content, line) == line + ([NL] + (if TrimSpace(content) == "" then "" else content))
  {
    assert [NL] + "" == [NL];
  }

  lemma JoinFront(line: string, rest: string)
    ensures Join([line] + Split(rest)) == line + ([NL] + rest)
  {
    JoinSplit(rest);
    assert ([line] + Split(rest))[1..] == Split(rest);
  }

  lemma ReplacedTwice(content: string, first: string, second: string)
    requires NL !in first && IsDescription(first)
    ensures SetText(SetText(content, first), second) == SetText(content, second)
  {
    var all, k := WrittenLines(content, first);
    assert Join(all[k := second]) == SetText(content, second);
  }

  function Newlines(s: string): nat { if s == "" then 0 else (if s[0] == NL then 1 else 0) + Newlines(s[1..]) }

  lemma {:induction false} NewlinesConcat(a: string, b: string)
    ensures Newlines(a + b) == Newlines(a) + Newlines(b)
  {
    if a == "" {
      assert a + b == b;
    } else {
      assert (a + b)[1..] == a[1..] + b;
      NewlinesConcat(a[1..], b);
    }
  }

  lemma {:induction false} NoNewlines(s: string)
    ensures Newlines(s) == 0 <==> NL !in s
  {
    if s != "" {
      NoNewlines(s[1..]);
      assert s == [s[0]] + s[1..];
    }
  }

  lemma {:induction false} ReplaceNewlines(s: string, c: char, with: string)
    requires c != NL && NL !in with
    ensures Newlines(ReplaceAll(s, c, with)) == Newlines(s)
  {
    if s != "" {
      ReplaceNewlines(s[1..], c, with);
      var first := if s[0] == c then with else [s[0]];
      NewlinesConcat(first, ReplaceAll(s[1..], c, with));
      NoNewlines(with);
      assert [s[0]][1..] == "";
    }
  }

  lemma LineNewlines(desc: string)
    ensures Newlines(LineOf(desc)) == Newlines(desc)
  {
    var once := ReplaceAll(desc, BACKSLASH, [BACKSLASH, BACKSLASH]);
    var twice := ReplaceAll(once, QUOTE, [BACKSLASH, QUOTE]);
    ReplaceNewlines(desc, BACKSLASH, [BACKSLASH, BACKSLASH]);
    ReplaceNewlines(once, QUOTE, [BACKSLASH, QUOTE]);
    KeyTight();
    NoNewlines(DESCRIPTION_KEY);
    NoNewlines([QUOTE]);
    NoNewlines(" ");
    NewlinesConcat(DESCRIPTION_KEY, " " + YamlQuote(desc));
    NewlinesConcat(" ", YamlQuote(desc));
    NewlinesConcat([QUOTE], twice + [QUOTE]);
    NewlinesConcat(twice, [QUOTE]);
  }

  lemma {:induction false} ReplacedNewlines(lines: seq<string>, i: nat, line: string)
    requires i < |lines| && NL !in lines[i]
    ensures Newlines(Join(lines[i := line])) == Newlines(Join(lines)) + Newlines(line)
  {
    NoNewlines(lines[i]);
    var now := lines[i := line];
    if |lines| > 1 {
      NewlinesConcat(lines[0], [NL] + Join(lines[1..]));
      NewlinesConcat([NL], Join(lines[1..]));
      NewlinesConcat(now[0], [NL] + Join(now[1..]));
      NewlinesConcat([NL], Join(now[1..]));
      if i > 0 {
        ReplacedNewlines(lines[1..], i - 1, line);
        assert now[1..] == lines[1..][i - 1 := line];
      } else {
        assert now[1..] == lines[1..];
      }
    }
  }

  /** How many newlines a document has around its description. */
  function Base(content: string): nat {
    if DescriptionAt(Split(content)) < |Split(content)| then Newlines(content)
    else if TrimSpace(content) == "" then 1
    else 1 + Newlines(content)
  }

  lemma SetNewlines(content: string, desc: string)
    ensures Newlines(SetDesc(content, desc)) == Base(content) + Newlines(desc)
  {
    var line, lines := LineOf(desc), Split(content);
    var i := DescriptionAt(lines);
    LineNewlines(desc);
    JoinSplit(content);
    if i < |lines| {
      ReplacedNewlines(lines, i, line);
    } else {
      assert Newlines([NL]) == 1 by { assert [NL][1..] == ""; }
      NewlinesConcat([NL], content);
      NewlinesConcat(line, [NL]);
      NewlinesConcat(line, [NL] + content);
    }
  }

  /** A second description replaces the first without trace exactly when the first is one line
      long: the escaping leaves newlines as they are. */
  lemma LastWriteWinsIff(content: string, first: string, second: string)
    ensures SetDesc(SetDesc(content, first), second) == SetDesc(content, second) <==> NL !in first
  {
    if NL !in first {
      LineOneLine(first);
      ReplacedTwice(content, LineOf(first), LineOf(second));
    } else {
      NoNewlines(first);
      WrittenHasOne(content, first);
      SetNewlines(content, first);
      SetNewlines(SetDesc(content, first), second);
      SetNewlines(content, second);
    }
  }

  lemma IdempotentIff(content: string, desc: string)
    ensures SetDesc(SetDesc(content, desc), desc) == SetDesc(content, desc) <==> NL !in desc
  {
    LastWriteWinsIff(content, desc, desc);
  }

  // ---- Reading back ---------------------------------------------------------------------------------

  function ReadDescription(content: string): Option<string> {
    var lines := Split(content);
    var i := DescriptionAt(lines);
    if i == |lines| then None else ReadScalar(TrimSpace(TrimSpace(lines[i])[|DESCRIPTION_KEY|..]))
  }

  lemma QuoteTight(desc: string)
    ensures Tight(YamlQuote(desc)) && YamlQuote(desc)[|YamlQuote(desc)| - 1] == QUOTE
  {
    var q := YamlQuote(desc);
    assert q[0] == QUOTE && q[|q| - 1] == QUOTE;
  }

  lemma LineRead(desc: string)
    ensures ReadScalar(TrimSpace(TrimSpace(LineOf(desc))[|DESCRIPTION_KEY|..])) == Some(desc)
  {
    KeyTight();
    QuoteTight(desc);
    var line, q := LineOf(desc), YamlQuote(desc);
    assert line[0] == DESCRIPTION_KEY[0] && line[|line| - 1] == q[|q| - 1];
    TrimIndented(line);
    assert line[|DESCRIPTION_KEY|..] == " " + q;
    TrimIndented(q);
    QuoteRoundTrip(desc);
  }

  /** Every one-line description is read back as it was given, whatever it contains. */
  lemma ReadBack(content: string, desc: string)
    requires NL !in desc
    ensures ReadDescription(SetDesc(content, desc)) == Some(desc)
  {
    LineOneLine(desc);
    LineRead(desc);
    var all, k := WrittenLines(content, LineOf(desc));
  }
}
