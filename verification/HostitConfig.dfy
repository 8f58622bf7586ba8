/** `SetSnapshotConfig` and `SetDescription` on whole documents, and what they promise: a
    second write changes nothing, the tenant's other lines stay, and what was written is what
    is read. */
module HostitConfig {
  import opened Transcript
  import opened YamlText
  import opened HostitYaml

  // ---- The edit, on text -------------------------------------------------------------------

  function TrimNewlines(s: string): (t: string)
    ensures t <= s
  {
    if s != "" && s[|s| - 1] == NL then TrimNewlines(s[..|s| - 1]) else s
  }

  function SetConfig(content: string, fields: seq<Field>): string {
    var lines := Split(content);
    var h := HeaderAt(lines);
    if h < |lines| then Join(Edited(lines, h, fields)) else Appended(content, SetFields([], fields))
  }

  function Appended(content: string, block: seq<string>): string {
    if AllBlank(block) then content
    else
      var trimmed := TrimNewlines(content);
      if trimmed == "" then Join([SNAPSHOT_KEY] + block) + [NL]
      else trimmed + ([NL] + (Join([SNAPSHOT_KEY] + block) + [NL]))
  }

  datatype Hooks = Hooks(interval: string, pre: string, post: string)

  function FieldsOf(hooks: Hooks): seq<Field> {
    [Field("interval", hooks.interval), Field("pre", hooks.pre), Field("post", hooks.post)]
  }

  lemma FieldsProper(hooks: Hooks)
    ensures ProperFields(FieldsOf(hooks))
  {
    var i, p, q := "interval", "pre", "post";
    assert i[0] == 'i' && p[0] == 'p' && q[0] == 'p' && p[1] == 'r' && q[1] == 'o';
    assert ProperKey(i) && ProperKey(p) && ProperKey(q);
  }

  // ---- One-line values keep lines one line ---------------------------------------------------

  ghost predicate OneLineFields(fields: seq<Field>) { forall i :: 0 <= i < |fields| ==> NL !in fields[i].value }

  lemma LineOneLine(key: string, value: string)
    requires ProperKey(key) && NL !in value
    ensures NL !in LineFor(key, value)
  {
    ScalarOneLine(value);
  }

  lemma {:induction false} SetKeyOneLine(block: seq<string>, key: string, value: string)
    requires OneLiners(block) && ProperKey(key) && NL !in value
    ensures OneLiners(SetKey(block, key, value))
  {
    LineOneLine(key, value);
    if block != [] && !KeyLine(block[0], key) { SetKeyOneLine(block[1..], key, value); }
  }

  lemma {:induction false} SetFieldsOneLine(block: seq<string>, fields: seq<Field>)
    requires OneLiners(block) && ProperFields(fields) && OneLineFields(fields)
    ensures OneLiners(SetFields(block, fields))
    decreases |fields|
  {
    if fields != [] {
      SetKeyOneLine(block, fields[0].key, fields[0].value);
      SetFieldsOneLine(SetKey(block, fields[0].key, fields[0].value), fields[1..]);
    }
  }

  lemma OneLinersConcat(a: seq<string>, b: seq<string>)
    requires OneLiners(a) && OneLiners(b)
    ensures OneLiners(a + b)
  {
  }

  lemma WrittenOneLine(pre: seq<string>, block: seq<string>, post: seq<string>)
    requires OneLiners(pre) && OneLiners(block) && OneLiners(post)
    ensures OneLiners(pre + ([SNAPSHOT_KEY] + (block + post)))
  {
    assert NL !in SNAPSHOT_KEY;
    OneLinersConcat(block, post);
    OneLinersConcat([SNAPSHOT_KEY], block + post);
    OneLinersConcat(pre, [SNAPSHOT_KEY] + (block + post));
  }

  // ---- Appending a block -----------------------------------------------------------------------

  lemma SplitNewline(s: string)
    ensures Split(s + [NL]) == Split(s) + [""]
  {
    var lines := Split(s);
    JoinSplit(s);
    JoinConcat(lines, [""]);
    assert [NL] + Join([""]) == [NL];
    OneLinersConcat(lines, [""]);
    SplitJoin(lines + [""]);
  }

  lemma {:induction false} TrimmedNoHeader(content: string)
    requires NoHeader(Split(content))
    ensures NoHeader(Split(TrimNewlines(content)))
  {
    if content != "" && content[|content| - 1] == NL {
      var shorter := content[..|content| - 1];
      assert content == shorter + [NL];
      SplitNewline(shorter);
      HeaderConcat(Split(shorter), [""]);
      TrimmedNoHeader(shorter);
    }
  }

  /** The lines in front of an appended block. */
  function Before(content: string): seq<string> {
    if TrimNewlines(content) == "" then [] else Split(TrimNewlines(content))
  }

  lemma AppendedText(content: string, block: seq<string>)
    ensures Appended(content, block) ==
            if AllBlank(block) then content else Join(Written(Before(content), block, [""]).Lines())
  {
    var trimmed, rebuilt := TrimNewlines(content), [SNAPSHOT_KEY] + block;
    JoinConcat(rebuilt, [""]);
    assert Join(rebuilt + [""]) == Join(rebuilt) + [NL];
    assert rebuilt + [""] == [SNAPSHOT_KEY] + (block + [""]);
    if trimmed == "" {
      assert Before(content) + (rebuilt + [""]) == rebuilt + [""];
    } else {
      JoinSplit(trimmed);
      JoinConcat(Split(trimmed), rebuilt + [""]);
    }
  }

  /** What the written document consists of: lines in front without a header, the new block,
      and lines behind that do not belong to it. */
  datatype Written = Written(pre: seq<string>, block: seq<string>, post: seq<string>) {
    function Lines(): seq<string> { pre + ([SNAPSHOT_KEY] + (block + post)) }
  }

  function WrittenBy(content: string, fields: seq<Field>): Written {
    var lines := Split(content);
    var h := HeaderAt(lines);
    if h < |lines| then Replaced(lines[..h], lines[h + 1..], fields)
    else Written(Before(content), SetFields([], fields), [""])
  }

  /** `pre`, a header and `rest`, with the header's block edited. */
  function Replaced(pre: seq<string>, rest: seq<string>, fields: seq<Field>): Written {
    Written(pre, SetFields(BlockOf(rest), fields), rest[|BlockOf(rest)|..])
  }

  /** The block of a document as it stands, empty when there is none. */
  function BlockIn(content: string): seq<string> {
    var lines := Split(content);
    var h := HeaderAt(lines);
    if h < |lines| then BlockOf(lines[h + 1..]) else []
  }

  predicate OneHeader(content: string) {
    var lines := Split(content);
    var h := HeaderAt(lines);
    h < |lines| ==> NoHeader(lines[h + 1..][|BlockOf(lines[h + 1..])|..])
  }

  lemma {:induction false} HeaderPrefix(lines: seq<string>)
    ensures NoHeader(lines[..HeaderAt(lines)])
  {
    if lines != [] && !IsHeader(lines[0]) {
      HeaderPrefix(lines[1..]);
      var n := HeaderAt(lines[1..]);
      assert lines[..n + 1] == [lines[0]] + lines[1..][..n];
      assert ([lines[0]] + lines[1..][..n])[1..] == lines[1..][..n];
    }
  }

  ghost predicate GoodFields(fields: seq<Field>) { ProperFields(fields) && OneLineFields(fields) }

  lemma OneLinersSlice(lines: seq<string>, i: nat, j: nat)
    requires OneLiners(lines) && i <= j <= |lines|
    ensures OneLiners(lines[i..j])
  {
  }

  ghost predicate Placed(w: Written) {
    && NoHeader(w.pre) && AllInside(w.block) && Detached(w.post)
    && OneLiners(w.pre) && OneLiners(w.block) && OneLiners(w.post)
  }

  lemma WrittenFacts(content: string, fields: seq<Field>)
    requires GoodFields(fields)
    ensures Placed(WrittenBy(content, fields))
    ensures WrittenBy(content, fields).block == SetFields(BlockIn(content), fields)
  {
    var lines := Split(content);
    var h := HeaderAt(lines);
    JoinSplit(content);
    if h < |lines| {
      ReplacedFacts(lines, h, fields);
    } else {
      AppendedFacts(content, fields);
    }
  }

  lemma BeforeFacts(content: string)
    requires NoHeader(Split(content))
    ensures NoHeader(Before(content)) && OneLiners(Before(content))
  {
    TrimmedNoHeader(content);
    JoinSplit(TrimNewlines(content));
  }

  lemma EmptyLineDetached()
    ensures Detached([""]) && OneLiners([""])
  {
    assert Blank("");
  }

  lemma AppendedFacts(content: string, fields: seq<Field>)
    requires GoodFields(fields) && NoHeader(Split(content))
    ensures Placed(Written(Before(content), SetFields([], fields), [""]))
  {
    BeforeFacts(content);
    EmptyLineDetached();
    SetFieldsInside([], fields);
    SetFieldsOneLine([], fields);
  }

  lemma ReplacedFacts(lines: seq<string>, h: nat, fields: seq<Field>)
    requires GoodFields(fields) && OneLiners(lines) && h == HeaderAt(lines) < |lines|
    ensures Placed(Replaced(lines[..h], lines[h + 1..], fields))
  {
    HeaderPrefix(lines);
    OneLinersSlice(lines, 0, h);
    OneLinersSlice(lines, h + 1, |lines|);
    ReplacedRest(lines[..h], lines[h + 1..], fields);
  }

  lemma ReplacedRest(pre: seq<string>, rest: seq<string>, fields: seq<Field>)
    requires GoodFields(fields) && OneLiners(pre) && OneLiners(rest) && NoHeader(pre)
    ensures Placed(Replaced(pre, rest, fields))
  {
    var block := BlockOf(rest);
    PostDetached(rest);
    OneLinersSlice(rest, |block|, |rest|);
    OneLinersSlice(rest, 0, |block|);
    assert rest[0..|block|] == block;
    SetFieldsInside(block, fields);
    SetFieldsOneLine(block, fields);
  }

  lemma WrittenText(content: string, fields: seq<Field>)
    ensures var w := WrittenBy(content, fields);
            SetConfig(content, fields) ==
            if !AllBlank(w.block) then Join(w.Lines())
            else if HeaderAt(Split(content)) < |Split(content)| then Join(w.pre + w.post)
            else content
  {
    var lines := Split(content);
    var h := HeaderAt(lines);
    if h < |lines| {
      ReplacedText(lines, h, fields);
    } else {
      AppendedText(content, SetFields([], fields));
    }
  }

  lemma ReplacedText(lines: seq<string>, h: nat, fields: seq<Field>)
    requires h < |lines|
    ensures var w := Replaced(lines[..h], lines[h + 1..], fields);
            Join(Edited(lines, h, fields)) == Join(if AllBlank(w.block) then w.pre + w.post else w.Lines())
  {
  }

  // ---- Writing twice ---------------------------------------------------------------------------------

  lemma JoinInjective(a: seq<string>, b: seq<string>)
    requires OneLiners(a) && OneLiners(b) && |b| > 1 && Join(a) == Join(b)
    ensures a == b
  {
    SplitJoin(b);
    if a != [] { SplitJoin(a); }
  }

  /** Setting the fields of what was just written. */
  lemma WriteAgain(w: Written, fields: seq<Field>)
    requires GoodFields(fields) && Placed(w) && !AllBlank(w.block)
    requires forall i :: 0 <= i < |fields| && fields[i].value != "" ==> Settled(w.block, fields[i].key, fields[i].value)
    ensures SetConfig(Join(w.Lines()), fields) == Join(w.Lines()) <==> AllSettled(w.block, fields)
  {
    var lines := w.Lines();
    WrittenOneLine(w.pre, w.block, w.post);
    SplitJoin(lines);
    EditAgain(w.pre, w.block, w.post, fields);
    var again := Edited(lines, |w.pre|, fields);
    if Join(again) == Join(lines) {
      WrittenFacts(Join(lines), fields);
      var v := WrittenBy(Join(lines), fields);
      WrittenOneLine(v.pre, v.block, v.post);
      OneLinersConcat(v.pre, v.post);
      JoinInjective(again, lines);
    }
  }

  lemma {:induction false} BlankFieldsEmpty(block: seq<string>, fields: seq<Field>)
    requires ProperFields(fields) && AllBlank(SetFields(block, fields))
    ensures Clean(block, fields) && SetFields([], fields) == []
  {
    var done := SetFields(block, fields);
    forall i | 0 <= i < |fields| ensures fields[i].value == "" && Settled(done, fields[i].key, fields[i].value) {
      if fields[i].value != "" { ValuesSettled(block, fields, i); }
      BlankSettled(done, fields[i].key, fields[i].value);
    }
    FieldsSettleIff(block, fields);
    SettledFieldsFixed([], fields);
  }

  /** A document whose block was removed has nothing left to remove. */
  lemma RemovedAgain(pre: seq<string>, post: seq<string>, fields: seq<Field>)
    requires NoHeader(pre) && NoHeader(post) && OneLiners(pre) && OneLiners(post) && SetFields([], fields) == []
    ensures SetConfig(Join(pre + post), fields) == Join(pre + post)
  {
    OneLinersConcat(pre, post);
    HeaderConcat(pre, post);
    if pre + post != [] {
      SplitJoin(pre + post);
    } else {
      NoHeaderInEmpty();
    }
  }

  lemma NoHeaderInEmpty()
    ensures Split("") == [""] && NoHeader([""])
  {
    assert TrimSpace("") == "";
    assert SNAPSHOT_KEY[0] == 's' && |SNAPSHOT_KEY| == 9;
    assert !IsHeader("");
    assert [""][1..] == [];
  }

  /** For a document with at most one block: writing the same settings again changes nothing
      exactly when no setting to be removed has two lines. */
  lemma IdempotentIff(content: string, fields: seq<Field>)
    requires GoodFields(fields) && OneHeader(content)
    ensures SetConfig(SetConfig(content, fields), fields) == SetConfig(content, fields) <==>
            Clean(BlockIn(content), fields)
  {
    var w := WrittenBy(content, fields);
    WrittenFacts(content, fields);
    WrittenText(content, fields);
    FieldsSettleIff(BlockIn(content), fields);
    if !AllBlank(w.block) {
      forall i | 0 <= i < |fields| && fields[i].value != "" ensures Settled(w.block, fields[i].key, fields[i].value) {
        ValuesSettled(BlockIn(content), fields, i);
      }
      WriteAgain(w, fields);
    } else {
      BlankFieldsEmpty(BlockIn(content), fields);
      if HeaderAt(Split(content)) < |Split(content)| { RemovedAgain(w.pre, w.post, fields); }
    }
  }

  // ---- Reading back ----------------------------------------------------------------------------------

  /** A line-level reader: the value on the first line of the key in the snapshot block. */
  function ReadField(block: seq<string>, key: string): Option<string> {
    if block == [] then None
    else if KeyLine(block[0], key) then ReadScalar(TrimSpace(TrimSpace(block[0])[|key| + 1..]))
    else ReadField(block[1..], key)
  }

  function ReadConfig(content: string, key: string): Option<string> { ReadField(BlockIn(content), key) }

  function Expected(value: string): Option<string> {
    if value == "" then None else ReadScalar(YamlScalar(value))
  }

  lemma LineRead(key: string, value: string)
    requires ProperKey(key) && value != ""
    ensures KeyLine(LineFor(key, value), key)
    ensures TrimSpace(TrimSpace(LineFor(key, value))[|key| + 1..]) == YamlScalar(value)
  {
    LineIsKey(key, value, key);
    LineTrimmed(key, value);
    ScalarTight(value);
    TrimIndented(YamlScalar(value));
    assert (key + ": " + YamlScalar(value))[|key| + 1..] == " " + YamlScalar(value);
  }

  lemma {:induction false} ReadSettled(block: seq<string>, key: string, value: string)
    requires ProperKey(key) && Settled(block, key, value)
    ensures ReadField(block, key) == Expected(value)
  {
    if block != [] {
      if KeyLine(block[0], key) {
        LineRead(key, value);
      } else {
        ReadSettled(block[1..], key, value);
      }
    }
  }

  lemma WrittenBlockIn(w: Written)
    requires Placed(w)
    ensures BlockIn(Join(w.Lines())) == WithoutBlankEnd(w.block)
  {
    WrittenOneLine(w.pre, w.block, w.post);
    SplitJoin(w.Lines());
    HeaderFound(w.pre, w.block + w.post);
    assert w.Lines()[|w.pre| + 1..] == w.block + w.post;
    BlockFound(w.block, w.post);
  }

  lemma RemovedBlockIn(pre: seq<string>, post: seq<string>)
    requires NoHeader(pre) && NoHeader(post) && OneLiners(pre) && OneLiners(post)
    ensures BlockIn(Join(pre + post)) == []
  {
    OneLinersConcat(pre, post);
    HeaderConcat(pre, post);
    if pre + post != [] {
      SplitJoin(pre + post);
    } else {
      NoHeaderInEmpty();
    }
  }

  /** What was written is what is read: an empty setting is absent, any other reads back as
      itself, except exactly the plain scalars that YAML does not read as they are written. */
  lemma ReadBackIff(content: string, fields: seq<Field>, i: nat)
    requires GoodFields(fields) && OneHeader(content) && Clean(BlockIn(content), fields) && i < |fields|
    ensures var f, read := fields[i], ReadConfig(SetConfig(content, fields), fields[i].key);
            if f.value == "" then read == None else (read == Some(f.value) <==> !PlainTrap(f.value))
  {
    var w, f := WrittenBy(content, fields), fields[i];
    WrittenFacts(content, fields);
    WrittenText(content, fields);
    ScalarRoundTripIff(f.value);
    if !AllBlank(w.block) {
      FieldsSettleIff(BlockIn(content), fields);
      TrimmedSettled(w.block, fields);
      WrittenBlockIn(w);
      ReadSettled(WithoutBlankEnd(w.block), f.key, f.value);
    } else {
      EmptyValues(BlockIn(content), fields, i);
      if HeaderAt(Split(content)) < |Split(content)| { RemovedBlockIn(w.pre, w.post); }
    }
  }

  lemma EmptyValues(block: seq<string>, fields: seq<Field>, i: nat)
    requires ProperFields(fields) && AllBlank(SetFields(block, fields)) && i < |fields|
    ensures fields[i].value == ""
  {
    if fields[i].value != "" {
      ValuesSettled(block, fields, i);
      BlankSettled(SetFields(block, fields), fields[i].key, fields[i].value);
    }
  }

  // ---- The three settings of a request ---------------------------------------------------------------

  predicate OneLineHooks(hooks: Hooks) { NL !in hooks.interval && NL !in hooks.pre && NL !in hooks.post }

  lemma HooksGood(hooks: Hooks)
    requires OneLineHooks(hooks)
    ensures GoodFields(FieldsOf(hooks))
  {
    FieldsProper(hooks);
  }

  /** Writing the same hooks again changes nothing exactly when none that is empty has two lines. */
  lemma HooksIdempotentIff(content: string, hooks: Hooks)
    requires OneLineHooks(hooks) && OneHeader(content)
    ensures var once := SetConfig(content, FieldsOf(hooks));
            SetConfig(once, FieldsOf(hooks)) == once <==> Clean(BlockIn(content), FieldsOf(hooks))
  {
    HooksGood(hooks);
    IdempotentIff(content, FieldsOf(hooks));
  }

  /** The setting reads back as given, empty ones as absent. */
  predicate Survives(content: string, key: string, value: string) {
    ReadConfig(content, key) == if value == "" then None else Some(value)
  }

  /** All three hooks read back as given exactly when none of them is a plain scalar that YAML reads
      differently. */
  lemma HooksReadBackIff(content: string, hooks: Hooks)
    requires OneLineHooks(hooks) && OneHeader(content) && Clean(BlockIn(content), FieldsOf(hooks))
    ensures var after := SetConfig(content, FieldsOf(hooks));
            && (Survives(after, "interval", hooks.interval) <==> hooks.interval == "" || !PlainTrap(hooks.interval))
            && (Survives(after, "pre", hooks.pre) <==> hooks.pre == "" || !PlainTrap(hooks.pre))
            && (Survives(after, "post", hooks.post) <==> hooks.post == "" || !PlainTrap(hooks.post))
  {
    HooksGood(hooks);
    ReadBackIff(content, FieldsOf(hooks), 0);
    ReadBackIff(content, FieldsOf(hooks), 1);
    ReadBackIff(content, FieldsOf(hooks), 2);
  }

  lemma OneSettingBlock(value: string)
    requires value != ""
    ensures SetFields([], FieldsOf(Hooks(value, "", ""))) == [LineFor("interval", value)]
    ensures !AllBlank([LineFor("interval", value)])
  {
    var fields := FieldsOf(Hooks(value, "", ""));
    FieldsProper(Hooks(value, "", ""));
    var line := LineFor("interval", value);
    assert ProperKey(fields[0].key) && ProperKey(fields[1].key) && ProperKey(fields[2].key);
    LineIsKey("interval", value, "pre");
    LineIsKey("interval", value, "post");
    assert [line][1..] == [];
    assert SetKey([line], "pre", "") == [line] && SetKey([line], "post", "") == [line];
    assert fields[1..] == [fields[1], fields[2]] && fields[1..][1..] == [fields[2]] && [fields[2]][1..] == [];
    assert SetFields([line], []) == [line];
    assert SetFields([line], [fields[2]]) == [line];
    assert SetFields([line], fields[1..]) == [line];
  }

  lemma BlockText(value: string)
    ensures Join([SNAPSHOT_KEY] + [LineFor("interval", value)]) == "snapshot:\n  interval: " + YamlScalar(value)
  {
    var line := LineFor("interval", value);
    var both := [SNAPSHOT_KEY] + [line];
    assert both[1..] == [line] && Join([line]) == line;
    PrefixText(YamlScalar(value));
  }

  lemma PrefixText(v: string)
    ensures "snapshot:" + ([NL] + ("  " + ("interval" + ": " + v))) == "snapshot:\n  interval: " + v
  {
    assert "snapshot:" + "\n" + "  " + "interval" + ": " == "snapshot:\n  interval: ";
  }

  /** The text of a new block, for one setting: behind the document, with two blanks in front. */
  lemma NewBlockText(content: string, value: string)
    requires NoHeader(Split(content)) && value != ""
    ensures var block := "snapshot:\n  interval: " + YamlScalar(value);
            SetConfig(content, FieldsOf(Hooks(value, "", ""))) ==
            if TrimNewlines(content) == "" then block + [NL] else TrimNewlines(content) + ([NL] + (block + [NL]))
  {
    OneSettingBlock(value);
    BlockText(value);
    assert SetConfig(content, FieldsOf(Hooks(value, "", ""))) == Appended(content, [LineFor("interval", value)]);
  }

  // ---- The tenant's lines ----------------------------------------------------------------------------------

  /** Every line outside the block stays: a document with a block is some lines, the header, the
      block and some lines; afterwards it is the same lines around the new block, or around
      nothing when the block is removed. */
  lemma OutsideKept(content: string, fields: seq<Field>)
    requires GoodFields(fields) && HeaderAt(Split(content)) < |Split(content)|
    ensures var w, was, now := WrittenBy(content, fields), Split(content), Split(SetConfig(content, fields));
            && was == w.pre + ([was[HeaderAt(was)]] + (BlockIn(content) + w.post))
            && (!AllBlank(w.block) ==> now == w.pre + ([SNAPSHOT_KEY] + (w.block + w.post)))
            && (AllBlank(w.block) && w.pre + w.post != [] ==> now == w.pre + w.post)
  {
    PartsOf(Split(content), HeaderAt(Split(content)));
    WrittenFacts(content, fields);
    WrittenText(content, fields);
    LinesRead(WrittenBy(content, fields));
  }

  lemma LinesRead(w: Written)
    requires Placed(w)
    ensures Split(Join(w.Lines())) == w.Lines()
    ensures w.pre + w.post != [] ==> Split(Join(w.pre + w.post)) == w.pre + w.post
  {
    WrittenOneLine(w.pre, w.block, w.post);
    SplitJoin(w.Lines());
    OneLinersConcat(w.pre, w.post);
    if w.pre + w.post != [] { SplitJoin(w.pre + w.post); }
  }

  lemma PartsOf(lines: seq<string>, h: nat)
    requires h < |lines|
    ensures var rest := lines[h + 1..];
            lines == lines[..h] + ([lines[h]] + (BlockOf(rest) + rest[|BlockOf(rest)|..]))
  {
    var rest := lines[h + 1..];
    assert BlockOf(rest) + rest[|BlockOf(rest)|..] == rest;
  }

  function NotOf(block: seq<string>, key: string): seq<string> {
    if block == [] then []
    else if KeyLine(block[0], key) then NotOf(block[1..], key)
    else [block[0]] + NotOf(block[1..], key)
  }

  /** Inside it, the lines that are not the key's (comments, other keys) stay, in order. */
  lemma {:induction false} OtherLinesKept(block: seq<string>, key: string, value: string)
    requires ProperKey(key)
    ensures NotOf(SetKey(block, key, value), key) == NotOf(block, key)
  {
    if value != "" { LineIsKey(key, value, key); }
    if block == [] {
      if value != "" { assert [LineFor(key, value)][1..] == []; }
    } else if !KeyLine(block[0], key) {
      OtherLinesKept(block[1..], key, value);
    }
  }

  // ---- The source's loops -------------------------------------------------------------------------------------

  lemma {:induction false} HeaderAtIs(lines: seq<string>, i: nat)
    requires i <= |lines| && (forall j :: 0 <= j < i ==> !IsHeader(lines[j])) && (i < |lines| ==> IsHeader(lines[i]))
    ensures HeaderAt(lines) == i
  {
    if i > 0 { HeaderAtIs(lines[1..], i - 1); }
  }

  lemma {:induction false} WithoutBlankEndIs(body: seq<string>, k: nat)
    requires k <= |body| && AllBlank(body[k..]) && (k > 0 ==> !Blank(body[k - 1]))
    ensures WithoutBlankEnd(body) == body[..k]
    decreases |body| - k
  {
    if k < |body| {
      var n := |body| - 1;
      assert body[k..][n - k] == body[n];
      assert body[..n][k..] == body[k..][..n - k];
      WithoutBlankEndIs(body[..n], k);
    }
  }

  /** Locates the block: the index of its header and of the first line after it. */
  method SnapshotBlock(lines: seq<string>) returns (start: int, end: int)
    ensures NoHeader(lines) ==> start == end == -1
    ensures !NoHeader(lines) ==> start == HeaderAt(lines) < |lines| && end == start + 1 + |BlockOf(lines[start + 1..])|
  {
    start := -1;
    for i := 0 to |lines|
      invariant start == -1 && forall j :: 0 <= j < i ==> !IsHeader(lines[j])
    {
      if SNAPSHOT_KEY <= TrimSpace(lines[i]) && !(" " <= lines[i]) {
        start := i;
        HeaderAtIs(lines, i);
        break;
      }
    }
    if start < 0 {
      HeaderAtIs(lines, |lines|);
      return -1, -1;
    }
    end := FindEnd(lines, start);
  }

  method FindEnd(lines: seq<string>, start: nat) returns (end: nat)
    requires start < |lines|
    ensures end == start + 1 + |BlockOf(lines[start + 1..])|
  {
    end := start + 1;
    while end < |lines|
      invariant start + 1 <= end <= |lines|
      invariant AllInside(lines[start + 1..end])
    {
      var l := lines[end];
      if !Blank(l) && !(" " <= l) && !("\t" <= l) { break; }
      assert lines[start + 1..end + 1] == lines[start + 1..end] + [l];
      end := end + 1;
    }
    BodyIs(lines, start + 1, end);
    end := DropBlankEnd(lines, start + 1, end);
  }

  lemma BodyIs(lines: seq<string>, from: nat, to: nat)
    requires from <= to <= |lines| && AllInside(lines[from..to]) && (to < |lines| ==> !Inside(lines[to]))
    ensures BlockOf(lines[from..]) == WithoutBlankEnd(lines[from..to])
  {
    var rest, n := lines[from..], to - from;
    assert rest[..n] == lines[from..to];
    assert n < |rest| ==> rest[n] == lines[to];
    PrefixBody(rest, n);
  }

  method DropBlankEnd(lines: seq<string>, from: nat, to: nat) returns (end: nat)
    requires from <= to <= |lines|
    ensures end == from + |WithoutBlankEnd(lines[from..to])|
  {
    end := to;
    while end > from && Blank(lines[end - 1])
      invariant from <= end <= to
      invariant AllBlank(lines[end..to])
    {
      end := end - 1;
      assert lines[end..to] == [lines[end]] + lines[end + 1..to];
    }
    ghost var body := lines[from..to];
    assert body[end - from..] == lines[end..to];
    WithoutBlankEndIs(body, end - from);
  }

  lemma {:induction false} SetKeyAt(before: seq<string>, after: seq<string>, key: string, value: string,
                                    out: seq<string>)
    requires NoKey(before, key) && out == SetKey(after, key, value)
    ensures SetKey(before + after, key, value) == before + out
  {
    if before == [] {
      assert before + after == after && before + out == out;
    } else {
      HeadOf(before, after);
      SetKeyAt(before[1..], after, key, value, out);
      HeadOf(before, out);
    }
  }

  lemma HeadOf(a: seq<string>, b: seq<string>)
    requires a != []
    ensures a + b != [] && (a + b)[0] == a[0] && (a + b)[1..] == a[1..] + b
    ensures [a[0]] + (a[1..] + b) == a + b
  {
  }

  lemma CutAt(a: seq<string>, i: nat)
    requires i < |a|
    ensures a[..i] + a[i..] == a && a[i..] != [] && a[i..][0] == a[i] && a[i..][1..] == a[i + 1..]
    ensures a[..i + 1] == a[..i] + [a[i]]
  {
  }

  lemma {:induction false} NoKeySnoc(block: seq<string>, l: string, key: string)
    requires NoKey(block, key) && !KeyLine(l, key)
    ensures NoKey(block + [l], key)
  {
    if block == [] {
      assert block + [l] == [l] && [l][1..] == [];
    } else {
      assert (block + [l])[1..] == block[1..] + [l];
      NoKeySnoc(block[1..], l, key);
    }
  }

  method SetBlockKey(block: seq<string>, key: string, value: string) returns (out: seq<string>)
    ensures out == SetKey(block, key, value)
  {
    var line := LineFor(key, value);
    for i := 0 to |block|
      invariant NoKey(block[..i], key)
    {
      CutAt(block, i);
      if key + ":" <= TrimSpace(block[i]) {
        SetKeyFound(block, i, key, value);
        if value == "" {
          return block[..i] + block[i + 1..];
        }
        return block[..i] + ([line] + block[i + 1..]);
      }
      NoKeySnoc(block[..i], block[i], key);
    }
    assert block[..|block|] == block;
    SetKeyMissing(block, key, value);
    if value == "" {
      return block;
    }
    return block + [line];
  }

  lemma SetKeyFound(block: seq<string>, i: nat, key: string, value: string)
    requires i < |block| && NoKey(block[..i], key) && KeyLine(block[i], key)
    ensures SetKey(block, key, value) ==
            if value == "" then block[..i] + block[i + 1..] else block[..i] + ([LineFor(key, value)] + block[i + 1..])
  {
    CutAt(block, i);
    SetKeyAt(block[..i], block[i..], key, value, SetKey(block[i..], key, value));
  }

  lemma SetKeyMissing(block: seq<string>, key: string, value: string)
    requires NoKey(block, key)
    ensures SetKey(block, key, value) == if value == "" then block else block + [LineFor(key, value)]
  {
    SetKeyAt(block, [], key, value, SetKey([], key, value));
    assert block + [] == block;
  }

  /** The three keys in turn. */
  method SetAllKeys(block: seq<string>, fields: seq<Field>) returns (out: seq<string>)
    ensures out == SetFields(block, fields)
  {
    out := block;
    for i := 0 to |fields|
      invariant SetFields(block, fields) == SetFields(out, fields[i..])
    {
      assert fields[i..][1..] == fields[i + 1..];
      out := SetBlockKey(out, fields[i].key, fields[i].value);
    }
    assert fields[|fields|..] == [];
  }

  method SetSnapshotConfig(content: string, hooks: Hooks) returns (out: string)
    ensures out == SetConfig(content, FieldsOf(hooks))
  {
    out := SetBlock(content, FieldsOf(hooks));
  }

  method SetBlock(content: string, fields: seq<Field>) returns (out: string)
    ensures out == SetConfig(content, fields)
  {
    var lines := Split(content);
    var start, end := SnapshotBlock(lines);
    if start < 0 {
      var block := SetAllKeys([], fields);
      out := AppendBlock(content, block);
    } else {
      CutsAgree(lines, start, end);
      var block := SetAllKeys(lines[start + 1..end], fields);
      out := ReplaceBlock(lines[..start], block, lines[end..]);
    }
  }

  method AppendBlock(content: string, block: seq<string>) returns (out: string)
    ensures out == Appended(content, block)
  {
    if AllBlank(block) {
      return content;
    }
    var rebuilt := [SNAPSHOT_KEY] + block;
    var trimmed := TrimNewlines(content);
    if trimmed == "" {
      return Join(rebuilt) + [NL];
    }
    return trimmed + ([NL] + (Join(rebuilt) + [NL]));
  }

  method ReplaceBlock(pre: seq<string>, block: seq<string>, post: seq<string>) returns (out: string)
    ensures out == Join(if AllBlank(block) then pre + post else pre + ([SNAPSHOT_KEY] + (block + post)))
  {
    if AllBlank(block) {
      return Join(pre + post);
    }
    return Join(pre + ([SNAPSHOT_KEY] + (block + post)));
  }

  lemma CutsAgree(lines: seq<string>, start: nat, end: nat)
    requires start < |lines| && end == start + 1 + |BlockOf(lines[start + 1..])|
    ensures end <= |lines|
    ensures lines[start + 1..end] == BlockOf(lines[start + 1..])
    ensures lines[end..] == lines[start + 1..][|BlockOf(lines[start + 1..])|..]
  {
  }
}
