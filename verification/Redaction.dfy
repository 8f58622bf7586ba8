/** Credential redaction (assistant/tools.go): leftmost, non-overlapping replacement of
    `("(?:access_token|refresh_token)"\s*:\s*")[^"]*(")` by the same text with the value
    `[redacted]`. Every part of the pattern is determined by the text, so a match at a
    position is unique and the scan below is the regular expression engine's.

    The reference reading is over the pieces between quotes: a match is a key piece, a
    colon piece and a value piece in a row, closed by a quote. */
module Redaction {

  const QUOTE := '"'
  const FORM_FEED := '\U{0c}'

  // `\s` in the source's regular expression syntax
  predicate IsSpace(c: char) { c == ' ' || c == '\t' || c == '\n' || c == '\r' || c == FORM_FEED }

  /** The quoted names whose values are replaced, and what replaces them. */
  datatype Rule = Rule(keys: set<string>, mark: string)

  const CREDENTIAL_FIELD := Rule({"access_token", "refresh_token"}, "[redacted]")

  /** The mark can neither end a value early nor be read as a name or a colon. */
  ghost predicate Harmless(rule: Rule) {
    QUOTE !in rule.mark && rule.mark !in rule.keys && !IsColon(rule.mark)
  }

  // ---- The scan -------------------------------------------------------------------

  function SkipSpaces(s: string): (n: nat)
    ensures n <= |s|
  {
    if s != [] && IsSpace(s[0]) then 1 + SkipSpaces(s[1..]) else 0
  }

  function UntilQuote(s: string): (n: nat)
    ensures n <= |s|
    ensures forall i :: 0 <= i < n ==> s[i] != QUOTE
    ensures n < |s| ==> s[n] == QUOTE
  {
    if s != [] && s[0] != QUOTE then 1 + UntilQuote(s[1..]) else 0
  }

  /** The length of `"key"` at the front of `s`, 0 when there is none. */
  function KeyLength(rule: Rule, s: string): (n: nat)
    ensures n <= |s|
  {
    if s == "" || s[0] != QUOTE then 0
    else
      var n := UntilQuote(s[1..]);
      if n + 1 < |s| && s[1..n + 1] in rule.keys then n + 2 else 0
  }

  /** The length of `\s*:\s*"` at the front of `s`, 0 when there is none. */
  function ColonLength(s: string): (n: nat)
    ensures n <= |s|
  {
    var a := SkipSpaces(s);
    if a == |s| || s[a] != ':' then 0
    else
      var b := a + 1 + SkipSpaces(s[a + 1..]);
      if b == |s| || s[b] != QUOTE then 0 else b + 1
  }

  /** Where the value of a match at the front of `s` starts and where its closing quote is. */
  datatype Span = NoMatch | Match(start: nat, end: nat)

  function FindValue(rule: Rule, s: string): (m: Span)
    ensures m.Match? ==> 0 < m.start <= m.end < |s|
  {
    var key := KeyLength(rule, s);
    var colon := ColonLength(s[key..]);
    if key == 0 || colon == 0 then NoMatch
    else
      var start := key + colon;
      var end := start + UntilQuote(s[start..]);
      if end == |s| then NoMatch else Match(start, end)
  }

  /** Replace every leftmost, non-overlapping match that `find` reports at the front of the
      text, keeping the quote that closes it. */
  function ReplaceAll(find: string -> Span, mark: string, s: string): string
    decreases |s|
  {
    if s == "" then s
    else
      var m := find(s);
      if m.Match? && 0 < m.start <= m.end < |s| then
        s[..m.start] + (mark + ([QUOTE] + ReplaceAll(find, mark, s[m.end + 1..])))
      else [s[0]] + ReplaceAll(find, mark, s[1..])
  }

  function Redact(rule: Rule, s: string): string {
    ReplaceAll((t: string) => FindValue(rule, t), rule.mark, s)
  }

  /** `find` is the pattern's matcher. */
  ghost predicate Finds(find: string -> Span, rule: Rule) {
    forall s {:trigger FindValue(rule, s)} :: find(s) == FindValue(rule, s)
  }

  // ---- The reading by pieces ---------------------------------------------------------

  /** The text split at every quote. */
  function Pieces(s: string): (ps: seq<string>)
    ensures |ps| >= 1
    decreases |s|
  {
    var n := UntilQuote(s);
    if n == |s| then [s] else [s[..n]] + Pieces(s[n + 1..])
  }

  function Join(ps: seq<string>): string
    requires |ps| >= 1
  {
    if |ps| == 1 then ps[0] else ps[0] + ([QUOTE] + Join(ps[1..]))
  }

  ghost predicate QuoteFree(ps: seq<string>) {
    forall i :: 0 <= i < |ps| ==> QUOTE !in ps[i]
  }

  predicate IsColon(piece: string) {
    var a := SkipSpaces(piece);
    a < |piece| && piece[a] == ':' && SkipSpaces(piece[a + 1..]) == |piece| - a - 1
  }

  /** A match starts at the first quote of `ps`. */
  predicate MatchesFirst(rule: Rule, ps: seq<string>) {
    |ps| >= 5 && ps[1] in rule.keys && IsColon(ps[2])
  }

  /** Piece `i` is the value of a match, scanning from the left without overlaps. */
  predicate IsValue(rule: Rule, ps: seq<string>, i: nat) {
    if MatchesFirst(rule, ps) then i == 3 || (i >= 4 && IsValue(rule, ps[4..], i - 4))
    else |ps| > 1 && i >= 1 && IsValue(rule, ps[1..], i - 1)
  }

  function RedactPieces(rule: Rule, ps: seq<string>): seq<string> {
    if MatchesFirst(rule, ps) then [ps[0]] + ([ps[1]] + ([ps[2]] + ([rule.mark] + RedactPieces(rule, ps[4..]))))
    else if |ps| <= 1 then ps
    else [ps[0]] + RedactPieces(rule, ps[1..])
  }

  // ---- The scan is the reading ---------------------------------------------------------

  lemma {:induction false} JoinPieces(s: string)
    ensures Join(Pieces(s)) == s && QuoteFree(Pieces(s))
    decreases |s|
  {
    var n := UntilQuote(s);
    if n == |s| {
      assert s[..n] == s;
    } else {
      JoinPieces(s[n + 1..]);
      JoinCons(s[..n], Pieces(s[n + 1..]));
      assert s == s[..n] + ([QUOTE] + s[n + 1..]);
    }
  }

  lemma JoinCons(p: string, ps: seq<string>)
    requires |ps| >= 1
    ensures Join([p] + ps) == p + ([QUOTE] + Join(ps))
    ensures QUOTE !in p && QuoteFree(ps) ==> QuoteFree([p] + ps)
  {
    assert ([p] + ps)[1..] == ps;
  }

  lemma {:induction false} UntilQuotePrefix(p: string, rest: string)
    requires QUOTE !in p && (rest == "" || rest[0] == QUOTE)
    ensures UntilQuote(p + rest) == |p|
  {
    if p == "" {
      assert p + rest == rest;
    } else {
      assert p[0] in p;
      assert (p + rest)[1..] == p[1..] + rest;
      UntilQuotePrefix(p[1..], rest);
    }
  }

  lemma {:induction false} PiecesJoin(ps: seq<string>)
    requires |ps| >= 1 && QuoteFree(ps)
    ensures Pieces(Join(ps)) == ps
  {
    if |ps| == 1 {
      PiecesOne(ps[0]);
    } else {
      PiecesJoin(ps[1..]);
      PiecesCons(ps[0], Join(ps[1..]));
      assert ps == [ps[0]] + ps[1..];
    }
  }

  lemma PiecesOne(p: string)
    requires QUOTE !in p
    ensures Pieces(p) == [p]
  {
    UntilQuotePrefix(p, "");
    assert p + "" == p;
  }

  lemma PiecesCons(p: string, rest: string)
    requires QUOTE !in p
    ensures Pieces(p + ([QUOTE] + rest)) == [p] + Pieces(rest)
  {
    UntilQuotePrefix(p, [QUOTE] + rest);
    CutAtQuote(p, rest);
  }

  lemma CutAtQuote(p: string, rest: string)
    ensures var s := p + ([QUOTE] + rest); |s| > |p| && s[..|p|] == p && s[|p| + 1..] == rest
  {
  }

  lemma {:induction false} SkipSpacesPrefix(p: string, rest: string)
    requires rest == "" || !IsSpace(rest[0])
    ensures SkipSpaces(p + rest) == SkipSpaces(p)
  {
    if p == "" {
      assert p + rest == rest;
    } else {
      assert (p + rest)[1..] == p[1..] + rest;
      SkipSpacesPrefix(p[1..], rest);
    }
  }

  /** Outside quotes nothing can match. */
  lemma PlainChar(rule: Rule, s: string)
    requires s == "" || s[0] != QUOTE
    ensures FindValue(rule, s) == NoMatch
  {
    assert KeyLength(rule, s) == 0;
  }

  lemma {:induction false} PlainPrefix(find: string -> Span, rule: Rule, p: string, rest: string, redacted: string)
    requires Finds(find, rule) && QUOTE !in p && redacted == ReplaceAll(find, rule.mark, rest)
    ensures ReplaceAll(find, rule.mark, p + rest) == p + redacted
    decreases |p|
  {
    if p == "" {
      assert p + rest == rest && p + redacted == redacted;
    } else {
      assert p[0] in p;
      assert (p + rest)[1..] == p[1..] + rest;
      PlainPrefix(find, rule, p[1..], rest, redacted);
      PlainChar(rule, p + rest);
      assert p == [p[0]] + p[1..];
      Assoc([p[0]], p[1..], redacted);
    }
  }

  /** `"(?:access_token|refresh_token)"` matches at the front exactly when the first piece
      is one of the two names. */
  lemma KeyIsLiteral(s: string)
    ensures KeyLength(CREDENTIAL_FIELD, s) > 0 <==> "\"access_token\"" <= s || "\"refresh_token\"" <= s
  {
    LiteralIsPiece("access_token", s);
    LiteralIsPiece("refresh_token", s);
    assert [QUOTE] + "access_token" + [QUOTE] == "\"access_token\"";
    assert [QUOTE] + "refresh_token" + [QUOTE] == "\"refresh_token\"";
  }

  lemma LiteralIsPiece(name: string, s: string)
    requires QUOTE !in name
    ensures [QUOTE] + name + [QUOTE] <= s <==>
            s != "" && s[0] == QUOTE &&
            var n := UntilQuote(s[1..]); n + 1 < |s| && s[1..n + 1] == name
  {
    var lit := [QUOTE] + name + [QUOTE];
    if lit <= s {
      var rest := s[|name| + 1..];
      assert s == lit + s[|lit|..];
      assert s[1..] == name + rest;
      UntilQuotePrefix(name, rest);
      assert s[1..|name| + 1] == name;
    }
    if s != "" && s[0] == QUOTE {
      var n := UntilQuote(s[1..]);
      if n + 1 < |s| && s[1..n + 1] == name {
        assert s[n + 1] == QUOTE;
        assert s[..n + 2] == lit;
      }
    }
  }

  lemma KeyPiece(rule: Rule, p: string, rest: string)
    requires QUOTE !in p && (rest == "" || rest[0] == QUOTE)
    ensures KeyLength(rule, [QUOTE] + (p + rest)) == if p in rule.keys && rest != "" then |p| + 2 else 0
  {
    var s := [QUOTE] + (p + rest);
    assert s[1..] == p + rest;
    UntilQuotePrefix(p, rest);
    assert s[1..|p| + 1] == p;
  }

  lemma ColonPiece(p: string, rest: string)
    requires QUOTE !in p && (rest == "" || rest[0] == QUOTE)
    ensures ColonLength(p + rest) == if IsColon(p) && rest != "" then |p| + 1 else 0
  {
    SkipSpacesPrefix(p, rest);
    var a := SkipSpaces(p);
    if a < |p| {
      assert (p + rest)[a] == p[a];
      assert (p + rest)[a + 1..] == p[a + 1..] + rest;
      SkipSpacesPrefix(p[a + 1..], rest);
      var b := a + 1 + SkipSpaces(p[a + 1..]);
      if b < |p| { assert (p + rest)[b] == p[b] && p[b] in p; }
    }
  }

  function After(ps: seq<string>): (rest: string)
    requires |ps| >= 1
    ensures rest == "" || rest[0] == QUOTE
    ensures rest == "" <==> |ps| == 1
    ensures Join(ps) == ps[0] + rest
  {
    if |ps| == 1 then (assert ps[0] + "" == ps[0]; "") else [QUOTE] + Join(ps[1..])
  }

  /** Where a match leaves the scan: behind the key, the colon and the value. */
  lemma MatchedPieces(rule: Rule, ps: seq<string>)
    requires |ps| >= 2 && QuoteFree(ps)
    ensures var q := [QUOTE] + Join(ps[1..]);
            FindValue(rule, q) ==
            if MatchesFirst(rule, ps) then Match(|ps[1]| + |ps[2]| + 3, |ps[1]| + |ps[2]| + 3 + |ps[3]|) else NoMatch
  {
    var q := [QUOTE] + Join(ps[1..]);
    KeyPiece(rule, ps[1], After(ps[1..]));
    if KeyLength(rule, q) > 0 {
      MatchedAfterKey(rule, ps, q);
    }
  }

  lemma MatchedAfterKey(rule: Rule, ps: seq<string>, q: string)
    requires |ps| >= 2 && QuoteFree(ps) && q == [QUOTE] + Join(ps[1..])
    requires KeyLength(rule, q) > 0 && KeyLength(rule, q) == |ps[1]| + 2 && |ps| >= 3 && ps[1] in rule.keys
    ensures FindValue(rule, q) ==
            if MatchesFirst(rule, ps) then Match(|ps[1]| + |ps[2]| + 3, |ps[1]| + |ps[2]| + 3 + |ps[3]|) else NoMatch
  {
    DropKey(ps);
    ColonPiece(ps[2], After(ps[2..]));
    if IsColon(ps[2]) && |ps| >= 4 {
      DropColon(ps);
      UntilQuotePrefix(ps[3], After(ps[3..]));
    }
  }

  lemma DropKey(ps: seq<string>)
    requires |ps| >= 3
    ensures ([QUOTE] + Join(ps[1..]))[|ps[1]| + 2..] == Join(ps[2..])
  {
    assert Join(ps[1..]) == ps[1] + ([QUOTE] + Join(ps[2..])) by { assert ps[1..][1..] == ps[2..]; }
  }

  function Head(ps: seq<string>): string
    requires |ps| >= 3
  {
    [QUOTE] + (ps[1] + ([QUOTE] + (ps[2] + [QUOTE])))
  }

  lemma DropColon(ps: seq<string>)
    requires |ps| >= 4
    ensures [QUOTE] + Join(ps[1..]) == Head(ps) + Join(ps[3..])
    ensures |Head(ps)| == |ps[1]| + |ps[2]| + 3
  {
    JoinCons(ps[1], ps[2..]);
    JoinCons(ps[2], ps[3..]);
    assert [ps[1]] + ps[2..] == ps[1..] && [ps[2]] + ps[3..] == ps[2..];
  }

  /** The regular expression's scan computes the reading by pieces. */
  lemma {:induction false} ScanIsReading(find: string -> Span, rule: Rule, ps: seq<string>)
    requires Finds(find, rule) && |ps| >= 1 && QuoteFree(ps)
    ensures |RedactPieces(rule, ps)| == |ps|
    ensures ReplaceAll(find, rule.mark, Join(ps)) == Join(RedactPieces(rule, ps))
    decreases |ps|
  {
    if |ps| == 1 {
      PlainPrefix(find, rule, ps[0], "", "");
      assert ps[0] + "" == ps[0];
    } else {
      var q := [QUOTE] + Join(ps[1..]);
      PlainPrefix(find, rule, ps[0], q, ReplaceAll(find, rule.mark, q));
      MatchedPieces(rule, ps);
      if MatchesFirst(rule, ps) {
        ScanIsReading(find, rule, ps[4..]);
        ScanMatched(find, rule, ps);
      } else {
        ScanIsReading(find, rule, ps[1..]);
        assert q[1..] == Join(ps[1..]);
        JoinCons(ps[0], RedactPieces(rule, ps[1..]));
      }
    }
  }

  lemma ScanMatched(find: string -> Span, rule: Rule, ps: seq<string>)
    requires Finds(find, rule) && MatchesFirst(rule, ps) && QuoteFree(ps)
    requires |RedactPieces(rule, ps[4..])| == |ps| - 4
    requires ReplaceAll(find, rule.mark, Join(ps[4..])) == Join(RedactPieces(rule, ps[4..]))
    ensures ps[0] + ReplaceAll(find, rule.mark, [QUOTE] + Join(ps[1..])) == Join(RedactPieces(rule, ps))
  {
    ScanHead(find, rule, ps);
    JoinFour(ps, rule.mark, RedactPieces(rule, ps[4..]));
  }

  lemma ScanHead(find: string -> Span, rule: Rule, ps: seq<string>)
    requires Finds(find, rule) && MatchesFirst(rule, ps) && QuoteFree(ps)
    ensures ReplaceAll(find, rule.mark, [QUOTE] + Join(ps[1..])) ==
            Head(ps) + (rule.mark + ([QUOTE] + ReplaceAll(find, rule.mark, Join(ps[4..]))))
  {
    var q := [QUOTE] + Join(ps[1..]);
    MatchedPieces(rule, ps);
    HeadSize(ps);
    PiecesText(ps);
    ReplaceHead(find, rule.mark, q, Head(ps), ps[3], Join(ps[4..]));
  }

  lemma ReplaceHead(find: string -> Span, mark: string, q: string, head: string, value: string, rest: string)
    requires head != "" && q == head + (value + ([QUOTE] + rest))
    requires find(q) == Match(|head|, |head| + |value|)
    ensures ReplaceAll(find, mark, q) == head + (mark + ([QUOTE] + ReplaceAll(find, mark, rest)))
  {
    SliceAround(head, value, rest);
  }

  lemma SliceAround(head: string, value: string, rest: string)
    ensures var q := head + (value + ([QUOTE] + rest));
            && q[..|head|] == head
            && q[|head|..] == value + ([QUOTE] + rest)
            && q[|head| + |value| + 1..] == rest
  {
  }

  lemma JoinFour(ps: seq<string>, value: string, tail: seq<string>)
    requires |ps| >= 3 && |tail| >= 1
    ensures Join([ps[0]] + ([ps[1]] + ([ps[2]] + ([value] + tail)))) ==
            ps[0] + (Head(ps) + (value + ([QUOTE] + Join(tail))))
  {
    var rest := value + ([QUOTE] + Join(tail));
    var t3 := [value] + tail;
    var t2 := [ps[2]] + t3;
    var t1 := [ps[1]] + t2;
    assert Join(t3) == rest by { JoinCons(value, tail); }
    assert Join(t2) == ps[2] + ([QUOTE] + rest) by { JoinCons(ps[2], t3); }
    assert Join(t1) == ps[1] + ([QUOTE] + Join(t2)) by { JoinCons(ps[1], t2); }
    JoinCons(ps[0], t1);
    HeadAssoc(ps[1], ps[2], rest);
  }

  lemma HeadAssoc(b: string, c: string, rest: string)
    ensures [QUOTE] + (b + ([QUOTE] + (c + [QUOTE]))) + rest == [QUOTE] + (b + ([QUOTE] + (c + ([QUOTE] + rest))))
  {
    Assoc([QUOTE], b + ([QUOTE] + (c + [QUOTE])), rest);
    Assoc(b, [QUOTE] + (c + [QUOTE]), rest);
    Assoc([QUOTE], c + [QUOTE], rest);
    Assoc(c, [QUOTE], rest);
  }

  lemma Assoc(a: string, b: string, c: string)
    ensures (a + b) + c == a + (b + c)
  {
  }

  // ---- Laws --------------------------------------------------------------------------------

  /** Only values change, each to the fixed text, and a second scan finds the same values. */
  lemma {:induction false} PieceLaw(rule: Rule, ps: seq<string>, i: nat)
    requires Harmless(rule) && i < |ps|
    ensures |RedactPieces(rule, ps)| == |ps|
    ensures RedactPieces(rule, ps)[i] == if IsValue(rule, ps, i) then rule.mark else ps[i]
    ensures IsValue(rule, RedactPieces(rule, ps), i) <==> IsValue(rule, ps, i)
    decreases |ps|
  {
    var r := RedactPieces(rule, ps);
    if MatchesFirst(rule, ps) {
      PieceLaw(rule, ps[4..], if i >= 4 then i - 4 else 0);
      assert r[4..] == RedactPieces(rule, ps[4..]);
      assert MatchesFirst(rule, r);
    } else if |ps| > 1 {
      PieceLaw(rule, ps[1..], if i >= 1 then i - 1 else 0);
      assert r[1..] == RedactPieces(rule, ps[1..]);
      NoNewMatch(rule, ps);
    }
  }

  /** Redacting values cannot create a match: the fixed text is neither a key nor a colon. */
  lemma NoNewMatch(rule: Rule, ps: seq<string>)
    requires Harmless(rule) && |ps| > 1 && !MatchesFirst(rule, ps)
    ensures |RedactPieces(rule, ps)| == |ps| && !MatchesFirst(rule, RedactPieces(rule, ps))
  {
    var r := RedactPieces(rule, ps);
    SamePieceOrRedacted(rule, ps[1..]);
    var tail := RedactPieces(rule, ps[1..]);
    assert r == [ps[0]] + tail;
    if |ps| >= 5 {
      assert r[1] == tail[0] && r[2] == tail[1];
    }
  }

  lemma {:induction false} SamePieceOrRedacted(rule: Rule, ps: seq<string>)
    ensures |RedactPieces(rule, ps)| == |ps|
    ensures forall i :: 0 <= i < |ps| ==> RedactPieces(rule, ps)[i] == ps[i] || RedactPieces(rule, ps)[i] == rule.mark
    decreases |ps|
  {
    if MatchesFirst(rule, ps) {
      SamePieceOrRedacted(rule, ps[4..]);
    } else if |ps| > 1 {
      SamePieceOrRedacted(rule, ps[1..]);
    }
  }

  lemma RedactedQuoteFree(rule: Rule, ps: seq<string>)
    requires Harmless(rule) && QuoteFree(ps)
    ensures QuoteFree(RedactPieces(rule, ps))
  {
    SamePieceOrRedacted(rule, ps);
  }

  lemma PiecesOfRedacted(rule: Rule, s: string)
    requires Harmless(rule)
    ensures Pieces(Redact(rule, s)) == RedactPieces(rule, Pieces(s))
  {
    var ps := Pieces(s);
    JoinPieces(s);
    ScanIsReading((t: string) => FindValue(rule, t), rule, ps);
    RedactedQuoteFree(rule, ps);
    PiecesJoin(RedactPieces(rule, ps));
  }

  lemma RedactTwice(rule: Rule, s: string)
    requires Harmless(rule)
    ensures Redact(rule, Redact(rule, s)) == Redact(rule, s)
  {
    var r := Redact(rule, s);
    var before, after := Pieces(s), Pieces(r);
    PiecesOfRedacted(rule, s);
    PiecesOfRedacted(rule, r);
    JoinPieces(Redact(rule, r));
    JoinPieces(r);
    SamePieceOrRedacted(rule, before);
    SamePieceOrRedacted(rule, after);
    forall i | 0 <= i < |after| ensures RedactPieces(rule, after)[i] == after[i] {
      PieceLaw(rule, before, i);
      PieceLaw(rule, after, i);
    }
    assert RedactPieces(rule, after) == after;
  }

  // ---- The source's function ---------------------------------------------------------------

  function RedactCredentials(s: string): string { Redact(CREDENTIAL_FIELD, s) }

  lemma CredentialFieldHarmless()
    ensures Harmless(CREDENTIAL_FIELD)
  {
    var mark := CREDENTIAL_FIELD.mark;
    assert |mark| == 10 && mark[0] == '[' && mark[9] == ']';
    assert SkipSpaces(mark) == 0;
  }

  /** For every text: pieces that are not matched values are kept, matched values become
      the mark, and a second scan matches them again at the same places. */
  lemma RedactionLaw(s: string, i: nat)
    requires i < |Pieces(s)|
    ensures var before, after := Pieces(s), Pieces(RedactCredentials(s));
            && |after| == |before|
            && after[i] == (if IsValue(CREDENTIAL_FIELD, before, i) then "[redacted]" else before[i])
            && (IsValue(CREDENTIAL_FIELD, after, i) <==> IsValue(CREDENTIAL_FIELD, before, i))
  {
    CredentialFieldHarmless();
    PiecesOfRedacted(CREDENTIAL_FIELD, s);
    PieceLaw(CREDENTIAL_FIELD, Pieces(s), i);
  }

  // ---- What is matched, spelled out -----------------------------------------------------------

  /** Nothing but what `\s` stands for. */
  ghost predicate Blank(s: string) {
    forall i :: 0 <= i < |s| ==> s[i] in {' ', '\t', '\n', '\r', '\U{0c}'}
  }

  lemma {:induction false} SkipsBlank(s: string)
    ensures Blank(s[..SkipSpaces(s)])
    ensures SkipSpaces(s) < |s| ==> s[SkipSpaces(s)] !in {' ', '\t', '\n', '\r', '\U{0c}'}
  {
    if s != [] && IsSpace(s[0]) {
      SkipsBlank(s[1..]);
      var n := SkipSpaces(s[1..]);
      assert s[..n + 1] == [s[0]] + s[1..][..n];
      if n < |s[1..]| { assert s[1..][n] == s[n + 1]; }
    }
  }

  lemma {:induction false} BlankSkipped(a: string, rest: string)
    requires Blank(a) && (rest == "" || rest[0] !in {' ', '\t', '\n', '\r', '\U{0c}'})
    ensures SkipSpaces(a + rest) == |a|
  {
    if a == "" {
      assert a + rest == rest;
    } else {
      assert (a + rest)[1..] == a[1..] + rest && IsSpace(a[0]);
      BlankSkipped(a[1..], rest);
    }
  }

  /** The middle of the expression: a colon with nothing but white space around it. */
  lemma ColonIff(p: string)
    ensures IsColon(p) <==> exists a, b :: Blank(a) && Blank(b) && p == a + (":" + b)
  {
    var n := SkipSpaces(p);
    SkipsBlank(p);
    if IsColon(p) {
      var rest := p[n + 1..];
      SkipsBlank(rest);
      assert rest[..|rest|] == rest;
      assert p == p[..n] + (":" + rest);
    }
    if a, b :| Blank(a) && Blank(b) && p == a + (":" + b) {
      ColonBetween(a, b);
    }
  }

  lemma ColonBetween(a: string, b: string)
    requires Blank(a) && Blank(b)
    ensures IsColon(a + (":" + b)) && QUOTE !in a + (":" + b)
  {
    var p := a + (":" + b);
    BlankSkipped(a, ":" + b);
    assert p[|a|] == ':' && p[|a| + 1..] == b;
    BlankSkipped(b, "");
    assert b + "" == b;
    forall i | 0 <= i < |p| ensures p[i] != QUOTE {
      assert p[i] == if i < |a| then a[i] else if i == |a| then ':' else b[i - |a| - 1];
    }
  }

  /** One of the two fields, with its value, as the expression takes it. */
  datatype Credential = Credential(name: string, a: string, b: string, value: string) {
    ghost predicate Valid() {
      name in {"access_token", "refresh_token"} && Blank(a) && Blank(b) && QUOTE !in value
    }

    function Colon(): string { a + (":" + b) }

    function Front(): string { "\"" + (name + ("\"" + (Colon() + "\""))) }

    function Then(rest: string): string { Front() + (value + ("\"" + rest)) }
  }

  lemma NamesQuoteFree()
    ensures QUOTE !in "access_token" && QUOTE !in "refresh_token"
  {
  }

  lemma FourThen(a: string, b: string, c: string, d: string, rest: seq<string>)
    requires QUOTE !in a && QUOTE !in b && QUOTE !in c && QUOTE !in d && QuoteFree(rest)
    ensures var ps := [a, b, c, d] + rest; QuoteFree(ps) && ps[4..] == rest
  {
  }

  lemma CredentialPieces(c: Credential, rest: string) returns (ps: seq<string>)
    requires c.Valid()
    ensures QuoteFree(ps) && MatchesFirst(CREDENTIAL_FIELD, ps)
    ensures ps[1] == c.name && ps[2] == c.Colon() && ps[3] == c.value && Join(ps[4..]) == rest
  {
    NamesQuoteFree();
    ColonBetween(c.a, c.b);
    JoinPieces(rest);
    FourThen("", c.name, c.Colon(), c.value, Pieces(rest));
    ps := ["", c.name, c.Colon(), c.value] + Pieces(rest);
  }

  lemma PiecesText(ps: seq<string>)
    requires |ps| >= 5
    ensures [QUOTE] + Join(ps[1..]) == Head(ps) + (ps[3] + ([QUOTE] + Join(ps[4..])))
  {
    DropColon(ps);
    JoinCons(ps[3], ps[4..]);
    assert [ps[3]] + ps[4..] == ps[3..];
  }

  lemma FoundAt(ps: seq<string>)
    requires QuoteFree(ps) && MatchesFirst(CREDENTIAL_FIELD, ps)
    ensures FindValue(CREDENTIAL_FIELD, [QUOTE] + Join(ps[1..])) == Match(|Head(ps)|, |Head(ps)| + |ps[3]|)
  {
    MatchedPieces(CREDENTIAL_FIELD, ps);
    HeadSize(ps);
  }

  lemma HeadSize(ps: seq<string>)
    requires |ps| >= 3
    ensures |Head(ps)| == |ps[1]| + |ps[2]| + 3
  {
  }

  lemma CredentialFound(c: Credential, rest: string)
    requires c.Valid()
    ensures FindValue(CREDENTIAL_FIELD, c.Then(rest)) == Match(|c.Front()|, |c.Front()| + |c.value|)
  {
    var ps := CredentialPieces(c, rest);
    assert Head(ps) == c.Front();
    PiecesText(ps);
    FoundAt(ps);
  }

  lemma FrontPiece(s: string)
    requires s != "" && s[0] == QUOTE
    ensures Pieces(s)[1..] == Pieces(s[1..]) && |Pieces(s)| >= 2 && s == [QUOTE] + Join(Pieces(s)[1..])
  {
    assert UntilQuote(s) == 0 && s[..0] == "";
    assert Pieces(s) == [""] + Pieces(s[1..]);
    JoinPieces(s[1..]);
    assert s == [QUOTE] + s[1..];
  }

  lemma FoundPieces(s: string) returns (ps: seq<string>)
    requires FindValue(CREDENTIAL_FIELD, s).Match?
    ensures QuoteFree(ps) && MatchesFirst(CREDENTIAL_FIELD, ps)
    ensures s == Head(ps) + (ps[3] + ([QUOTE] + Join(ps[4..])))
  {
    assert s != "" && s[0] == QUOTE by {
      if s == "" || s[0] != QUOTE { PlainChar(CREDENTIAL_FIELD, s); }
    }
    ps := Pieces(s);
    JoinPieces(s);
    FrontPiece(s);
    MatchedPieces(CREDENTIAL_FIELD, ps);
    PiecesText(ps);
  }

  lemma CredentialOf(ps: seq<string>) returns (c: Credential)
    requires QuoteFree(ps) && MatchesFirst(CREDENTIAL_FIELD, ps)
    ensures c.Valid() && c.Front() == Head(ps) && c.value == ps[3]
  {
    ColonIff(ps[2]);
    var a, b :| Blank(a) && Blank(b) && ps[2] == a + (":" + b);
    c := Credential(ps[1], a, b, ps[3]);
  }

  lemma FoundCredential(s: string) returns (c: Credential, rest: string)
    requires FindValue(CREDENTIAL_FIELD, s).Match?
    ensures c.Valid() && s == c.Then(rest)
  {
    var ps := FoundPieces(s);
    c := CredentialOf(ps);
    rest := Join(ps[4..]);
  }

  /** The expression matches at the front of a text exactly when one of the two quoted names
      stands there, a colon with white space around it, and a quoted value. */
  lemma MatchIff(s: string)
    ensures FindValue(CREDENTIAL_FIELD, s).Match? <==> exists c: Credential, rest :: c.Valid() && s == c.Then(rest)
  {
    if FindValue(CREDENTIAL_FIELD, s).Match? {
      var c, rest := FoundCredential(s);
    }
    if c: Credential, rest :| c.Valid() && s == c.Then(rest) {
      CredentialFound(c, rest);
    }
  }

  /** No credential begins in `before` when `rest` follows it. */
  ghost predicate NoneIn(before: string, rest: string) {
    forall i, c: Credential, r :: 0 <= i < |before| && c.Valid() ==> before[i..] + rest != c.Then(r)
  }

  lemma NoneFound(before: string, rest: string)
    requires before != "" && NoneIn(before, rest)
    ensures FindValue(CREDENTIAL_FIELD, before + rest) == NoMatch
  {
    MatchIff(before + rest);
    assert before[0..] == before;
  }

  lemma NoneInTail(before: string, rest: string)
    requires before != "" && NoneIn(before, rest)
    ensures NoneIn(before[1..], rest)
  {
    forall i, c: Credential, r | 0 <= i < |before[1..]| && c.Valid() ensures before[1..][i..] + rest != c.Then(r) {
      assert before[1..][i..] == before[i + 1..];
    }
  }

  lemma {:induction false} KeptBefore(find: string -> Span, before: string, rest: string, redacted: string)
    requires Finds(find, CREDENTIAL_FIELD) && NoneIn(before, rest)
    requires redacted == ReplaceAll(find, CREDENTIAL_FIELD.mark, rest)
    ensures ReplaceAll(find, CREDENTIAL_FIELD.mark, before + rest) == before + redacted
    decreases |before|
  {
    if before == "" {
      assert before + rest == rest && before + redacted == redacted;
    } else {
      NoneFound(before, rest);
      NoneInTail(before, rest);
      assert (before + rest)[1..] == before[1..] + rest;
      KeptBefore(find, before[1..], rest, redacted);
      assert before == [before[0]] + before[1..];
      Assoc([before[0]], before[1..], redacted);
    }
  }

  /** The leftmost credential of a text, whatever stands before and after it: what precedes stays,
      its value is replaced, and the rest is redacted in turn. */
  lemma ValueReplaced(before: string, c: Credential, after: string)
    requires c.Valid() && NoneIn(before, c.Then(after))
    ensures RedactCredentials(before + c.Then(after)) ==
            before + (c.Front() + ("[redacted]" + ("\"" + RedactCredentials(after))))
  {
    var find := (t: string) => FindValue(CREDENTIAL_FIELD, t);
    KeptBefore(find, before, c.Then(after), ReplaceAll(find, CREDENTIAL_FIELD.mark, c.Then(after)));
    CredentialFound(c, after);
    ReplaceHead(find, CREDENTIAL_FIELD.mark, c.Then(after), c.Front(), c.value, after);
  }

  /** And a text without any stays as it is. */
  lemma NothingReplaced(s: string)
    requires NoneIn(s, "")
    ensures RedactCredentials(s) == s
  {
    KeptBefore((t: string) => FindValue(CREDENTIAL_FIELD, t), s, "", "");
    assert s + "" == s;
  }

  /** Redacting on the way to the watchers and again on the way into storage is the same
      as redacting once. */
  lemma RedactIdempotent(s: string)
    ensures RedactCredentials(RedactCredentials(s)) == RedactCredentials(s)
  {
    CredentialFieldHarmless();
    RedactTwice(CREDENTIAL_FIELD, s);
  }
}
