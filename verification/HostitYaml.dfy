/** Writing back into a tenant's hostit.yml by line surgery (app/snapshotwrite.go,
    app/config.go). */
module HostitYaml {
  import opened YamlText

  // ---- One key of a block ------------------------------------------------------------------

  /** A key as the block holds it: no colon inside, no space in front. */
  predicate ProperKey(key: string) { key != "" && !IsSpace(key[0]) && ':' !in key && NL !in key }

  predicate KeyLine(l: string, key: string) { key + ":" <= TrimSpace(l) }

  function LineFor(key: string, value: string): string { "  " + (key + ": " + YamlScalar(value)) }

  /** A key's line: the key and a colon behind white space, and whatever follows. */
  lemma KeyLineIff(l: string, key: string)
    ensures KeyLine(l, key) <==> exists rest :: TrimSpace(l) == key + ":" + rest
  {
    if KeyLine(l, key) {
      var t := TrimSpace(l);
      assert t == key + ":" + t[|key| + 1..];
    }
  }

  lemma LineTrimmed(key: string, value: string)
    requires ProperKey(key) && value != ""
    ensures TrimSpace(LineFor(key, value)) == key + ": " + YamlScalar(value)
  {
    ScalarTight(value);
    var x := key + ": " + YamlScalar(value);
    assert x[0] == key[0] && x[|x| - 1] == YamlScalar(value)[|YamlScalar(value)| - 1];
    TrimIndented(x);
  }

  lemma {:induction false} FirstColon(key: string, t: string)
    requires ':' !in key && key + ":" <= t
    ensures IndexOf(t, ':') == |key| && t[..|key|] == key
  {
    assert t[|key|] == (key + ":")[|key|];
    if key != "" {
      assert t[0] == key[0] && key[1..] + ":" == (key + ":")[1..] <= t[1..];
      FirstColon(key[1..], t[1..]);
    }
  }

  /** A line belongs to at most one key. */
  lemma OneKey(l: string, key: string, other: string)
    requires ProperKey(key) && ProperKey(other) && KeyLine(l, key) && KeyLine(l, other)
    ensures key == other
  {
    FirstColon(key, TrimSpace(l));
    FirstColon(other, TrimSpace(l));
  }

  lemma LineIsKey(key: string, value: string, other: string)
    requires ProperKey(key) && ProperKey(other) && value != ""
    ensures KeyLine(LineFor(key, value), other) <==> key == other
    ensures !Blank(LineFor(key, value))
  {
    LineTrimmed(key, value);
    assert key + ":" <= key + ": " + YamlScalar(value) by {
      assert key + ": " + YamlScalar(value) == (key + ":") + (" " + YamlScalar(value));
    }
    if KeyLine(LineFor(key, value), other) { OneKey(LineFor(key, value), key, other); }
  }

  /** Sets the first line of `key`, removes it when the value is empty, appends when there is none. */
  function SetKey(block: seq<string>, key: string, value: string): seq<string> {
    if block == [] then (if value == "" then [] else [LineFor(key, value)])
    else if KeyLine(block[0], key) then (if value == "" then block[1..] else [LineFor(key, value)] + block[1..])
    else [block[0]] + SetKey(block[1..], key, value)
  }

  predicate NoKey(block: seq<string>, key: string) {
    block == [] || (!KeyLine(block[0], key) && NoKey(block[1..], key))
  }

  predicate AtMostOne(block: seq<string>, key: string) {
    block == [] || (if KeyLine(block[0], key) then NoKey(block[1..], key) else AtMostOne(block[1..], key))
  }

  /** The block already says so. */
  predicate Settled(block: seq<string>, key: string, value: string) {
    if block == [] then value == ""
    else if KeyLine(block[0], key) then value != "" && block[0] == LineFor(key, value)
    else Settled(block[1..], key, value)
  }

  lemma {:induction false} SettledFixed(block: seq<string>, key: string, value: string)
    requires Settled(block, key, value)
    ensures SetKey(block, key, value) == block
  {
    if block != [] && !KeyLine(block[0], key) { SettledFixed(block[1..], key, value); }
  }

  lemma {:induction false} NoKeySettled(block: seq<string>, key: string)
    ensures Settled(block, key, "") <==> NoKey(block, key)
  {
    if block != [] { NoKeySettled(block[1..], key); }
  }

  /** Setting settles a value; removing settles exactly when there was at most one line. */
  lemma {:induction false} SetSettles(block: seq<string>, key: string, value: string)
    requires ProperKey(key)
    ensures Settled(SetKey(block, key, value), key, value) <==> value != "" || AtMostOne(block, key)
  {
    if value != "" { LineIsKey(key, value, key); }
    if block != [] {
      if KeyLine(block[0], key) {
        NoKeySettled(block[1..], key);
      } else {
        SetSettles(block[1..], key, value);
      }
    }
  }

  lemma {:induction false} SetKeepsOthers(block: seq<string>, key: string, value: string, other: string, v: string)
    requires ProperKey(key) && ProperKey(other) && key != other
    ensures Settled(SetKey(block, key, value), other, v) <==> Settled(block, other, v)
    ensures NoKey(SetKey(block, key, value), other) <==> NoKey(block, other)
    ensures AtMostOne(SetKey(block, key, value), other) <==> AtMostOne(block, other)
  {
    if value != "" { LineIsKey(key, value, other); }
    if block != [] {
      if KeyLine(block[0], key) {
        if KeyLine(block[0], other) { OneKey(block[0], key, other); }
      } else {
        SetKeepsOthers(block[1..], key, value, other, v);
      }
    }
  }

  // ---- The fields of a block ---------------------------------------------------------------------

  datatype Field = Field(key: string, value: string)

  function SetFields(block: seq<string>, fields: seq<Field>): seq<string>
    decreases |fields|
  {
    if fields == [] then block else SetFields(SetKey(block, fields[0].key, fields[0].value), fields[1..])
  }

  ghost predicate ProperFields(fields: seq<Field>) {
    && (forall i :: 0 <= i < |fields| ==> ProperKey(fields[i].key))
    && (forall i, j :: 0 <= i < j < |fields| ==> fields[i].key != fields[j].key)
  }

  ghost predicate AllSettled(block: seq<string>, fields: seq<Field>) {
    forall i :: 0 <= i < |fields| ==> Settled(block, fields[i].key, fields[i].value)
  }

  /** No field that is to be removed has two lines. */
  ghost predicate Clean(block: seq<string>, fields: seq<Field>) {
    forall i :: 0 <= i < |fields| ==> fields[i].value != "" || AtMostOne(block, fields[i].key)
  }

  lemma {:induction false} SettledFieldsFixed(block: seq<string>, fields: seq<Field>)
    requires AllSettled(block, fields)
    ensures SetFields(block, fields) == block
    decreases |fields|
  {
    if fields != [] {
      assert Settled(block, fields[0].key, fields[0].value);
      SettledFixed(block, fields[0].key, fields[0].value);
      SettledFieldsFixed(block, fields[1..]);
    }
  }

  /** Setting further fields does not disturb one that they do not name. */
  lemma {:induction false} OthersKept(block: seq<string>, fields: seq<Field>, key: string, value: string)
    requires ProperFields(fields) && ProperKey(key) && forall i :: 0 <= i < |fields| ==> fields[i].key != key
    ensures Settled(SetFields(block, fields), key, value) <==> Settled(block, key, value)
    decreases |fields|
  {
    if fields != [] {
      var f := fields[0];
      SetKeepsOthers(block, f.key, f.value, key, value);
      OthersKept(SetKey(block, f.key, f.value), fields[1..], key, value);
    }
  }

  lemma CleanNext(block: seq<string>, fields: seq<Field>)
    requires ProperFields(fields) && fields != []
    ensures Clean(block, fields) <==>
            (fields[0].value != "" || AtMostOne(block, fields[0].key))
            && Clean(SetKey(block, fields[0].key, fields[0].value), fields[1..])
  {
    var f, rest := fields[0], fields[1..];
    forall i | 0 <= i < |rest|
      ensures AtMostOne(SetKey(block, f.key, f.value), rest[i].key) <==> AtMostOne(block, rest[i].key)
    {
      assert rest[i] == fields[i + 1];
      SetKeepsOthers(block, f.key, f.value, rest[i].key, "");
    }
    if Clean(block, fields) {
      assert forall i :: 0 <= i < |rest| ==> rest[i] == fields[i + 1];
    }
    if (f.value != "" || AtMostOne(block, f.key)) && Clean(SetKey(block, f.key, f.value), rest) {
      forall i | 0 <= i < |fields| ensures fields[i].value != "" || AtMostOne(block, fields[i].key) {
        if i > 0 { assert fields[i] == rest[i - 1]; }
      }
    }
  }

  lemma {:induction false} FieldsSettleIff(block: seq<string>, fields: seq<Field>)
    requires ProperFields(fields)
    ensures AllSettled(SetFields(block, fields), fields) <==> Clean(block, fields)
    decreases |fields|
  {
    if fields != [] {
      var f, rest := fields[0], fields[1..];
      var next := SetKey(block, f.key, f.value);
      var done := SetFields(next, rest);
      FieldsSettleIff(next, rest);
      CleanNext(block, fields);
      SetSettles(block, f.key, f.value);
      OthersKept(next, rest, f.key, f.value);
      SettledHead(done, fields);
    }
  }

  lemma SettledHead(block: seq<string>, fields: seq<Field>)
    requires fields != []
    ensures AllSettled(block, fields) <==>
            Settled(block, fields[0].key, fields[0].value) && AllSettled(block, fields[1..])
  {
    if Settled(block, fields[0].key, fields[0].value) && AllSettled(block, fields[1..]) {
      forall i | 0 <= i < |fields| ensures Settled(block, fields[i].key, fields[i].value) {
        if i > 0 { assert fields[i] == fields[1..][i - 1]; }
      }
    }
  }

  // ---- Where the block is --------------------------------------------------------------------------

  const SNAPSHOT_KEY := "snapshot:"

  predicate IsHeader(l: string) { SNAPSHOT_KEY <= TrimSpace(l) && !(" " <= l) }

  function HeaderAt(lines: seq<string>): (i: nat)
    ensures i <= |lines|
  {
    if lines == [] || IsHeader(lines[0]) then 0 else 1 + HeaderAt(lines[1..])
  }

  predicate NoHeader(lines: seq<string>) { HeaderAt(lines) == |lines| }

  /** Blank or indented: part of the block it follows. */
  predicate Inside(l: string) { Blank(l) || " " <= l || "\t" <= l }

  function BodyLength(rest: seq<string>): (n: nat)
    ensures n <= |rest|
  {
    if rest == [] || !Inside(rest[0]) then 0 else 1 + BodyLength(rest[1..])
  }

  /** Blank lines trailing the block belong to whatever follows. */
  function WithoutBlankEnd(body: seq<string>): (t: seq<string>)
    ensures t <= body
  {
    if body != [] && Blank(body[|body| - 1]) then WithoutBlankEnd(body[..|body| - 1]) else body
  }

  /** The block's lines when `rest` follows the header. */
  function BlockOf(rest: seq<string>): (t: seq<string>)
    ensures t <= rest
  {
    WithoutBlankEnd(rest[..BodyLength(rest)])
  }

  ghost predicate AllInside(lines: seq<string>) { forall i :: 0 <= i < |lines| ==> Inside(lines[i]) }

  predicate AllBlank(lines: seq<string>) { forall i :: 0 <= i < |lines| ==> Blank(lines[i]) }

  /** Nothing of `post` would be taken for the block in front of it. */
  predicate Detached(post: seq<string>) { AllBlank(post[..BodyLength(post)]) }

  lemma {:induction false} HeaderConcat(a: seq<string>, b: seq<string>)
    ensures HeaderAt(a + b) == if NoHeader(a) then |a| + HeaderAt(b) else HeaderAt(a)
  {
    if a == [] {
      assert a + b == b;
    } else {
      assert (a + b)[1..] == a[1..] + b;
      HeaderConcat(a[1..], b);
    }
  }

  lemma {:induction false} BodyConcat(a: seq<string>, b: seq<string>)
    requires AllInside(a)
    ensures BodyLength(a + b) == |a| + BodyLength(b)
  {
    if a == [] {
      assert a + b == b;
    } else {
      assert (a + b)[1..] == a[1..] + b && Inside(a[0]);
      BodyConcat(a[1..], b);
    }
  }

  lemma {:induction false} BodyInside(rest: seq<string>)
    ensures AllInside(rest[..BodyLength(rest)])
    ensures BodyLength(rest) < |rest| ==> !Inside(rest[BodyLength(rest)])
  {
    if rest != [] && Inside(rest[0]) {
      BodyInside(rest[1..]);
      var n := BodyLength(rest[1..]);
      assert rest[..n + 1] == [rest[0]] + rest[1..][..n];
    }
  }

  lemma {:induction false} BlankEnd(body: seq<string>)
    ensures AllBlank(body[|WithoutBlankEnd(body)|..])
  {
    if body != [] && Blank(body[|body| - 1]) {
      var shorter := body[..|body| - 1];
      BlankEnd(shorter);
      var n := |WithoutBlankEnd(shorter)|;
      assert body[n..] == shorter[n..] + [body[|body| - 1]];
    }
  }

  lemma {:induction false} BlankEndDropped(a: seq<string>, blanks: seq<string>)
    requires AllBlank(blanks)
    ensures WithoutBlankEnd(a + blanks) == WithoutBlankEnd(a)
    decreases |blanks|
  {
    if blanks == [] {
      assert a + blanks == a;
    } else {
      var n := |blanks| - 1;
      assert Blank(blanks[n]) && (a + blanks)[..|a| + n] == a + blanks[..n];
      BlankEndDropped(a, blanks[..n]);
    }
  }

  lemma PrefixBody(a: seq<string>, n: nat)
    requires n <= |a| && AllInside(a[..n]) && (n < |a| ==> !Inside(a[n]))
    ensures BodyLength(a) == n
  {
    BodyConcat(a[..n], a[n..]);
    assert a[..n] + a[n..] == a;
  }

  /** What follows a block is detached from it, and cutting twice cuts the same. */
  lemma PostDetached(rest: seq<string>)
    ensures Detached(rest[|BlockOf(rest)|..]) && AllInside(BlockOf(rest))
  {
    var n, k := BodyLength(rest), |BlockOf(rest)|;
    var post := rest[k..];
    BodyInside(rest);
    BlankEnd(rest[..n]);
    assert post[..n - k] == rest[..n][k..];
    assert n < |rest| ==> post[n - k] == rest[n];
    PrefixBody(post, n - k);
  }

  /** An edited block is found again, without the blank lines at its end. */
  lemma BlockFound(block: seq<string>, post: seq<string>)
    requires AllInside(block) && Detached(post)
    ensures BlockOf(block + post) == WithoutBlankEnd(block)
  {
    var n := BodyLength(post);
    BodyConcat(block, post);
    assert (block + post)[..|block| + n] == block + post[..n];
    BlankEndDropped(block, post[..n]);
  }

  lemma {:induction false} SetKeyInside(block: seq<string>, key: string, value: string)
    requires AllInside(block)
    ensures AllInside(SetKey(block, key, value))
  {
    assert " " <= LineFor(key, value);
    if block != [] && !KeyLine(block[0], key) {
      assert Inside(block[0]);
      SetKeyInside(block[1..], key, value);
    }
  }

  lemma {:induction false} SetFieldsInside(block: seq<string>, fields: seq<Field>)
    requires AllInside(block)
    ensures AllInside(SetFields(block, fields))
    decreases |fields|
  {
    if fields != [] {
      SetKeyInside(block, fields[0].key, fields[0].value);
      SetFieldsInside(SetKey(block, fields[0].key, fields[0].value), fields[1..]);
    }
  }

  /** Blank lines at the end hold no key. */
  lemma {:induction false} SettledBeforeBlanks(a: seq<string>, blanks: seq<string>, key: string, value: string)
    requires AllBlank(blanks) && ProperKey(key)
    ensures Settled(a + blanks, key, value) <==> Settled(a, key, value)
  {
    if a != [] {
      assert (a + blanks)[1..] == a[1..] + blanks;
      SettledBeforeBlanks(a[1..], blanks, key, value);
    } else {
      assert a + blanks == blanks;
      BlankSettled(blanks, key, value);
    }
  }

  lemma {:induction false} BlankSettled(blanks: seq<string>, key: string, value: string)
    requires AllBlank(blanks) && ProperKey(key)
    ensures Settled(blanks, key, value) <==> value == ""
  {
    if blanks != [] {
      assert Blank(blanks[0]);
      BlankSettled(blanks[1..], key, value);
    }
  }

  lemma TrimmedSettled(block: seq<string>, fields: seq<Field>)
    requires ProperFields(fields)
    ensures AllSettled(WithoutBlankEnd(block), fields) <==> AllSettled(block, fields)
  {
    var t := WithoutBlankEnd(block);
    BlankEnd(block);
    assert block == t + block[|t|..];
    forall i | 0 <= i < |fields|
      ensures Settled(block, fields[i].key, fields[i].value) <==> Settled(t, fields[i].key, fields[i].value)
    {
      SettledBeforeBlanks(t, block[|t|..], fields[i].key, fields[i].value);
    }
  }

  // ---- The edit, on lines ---------------------------------------------------------------------------

  /** The lines after editing the block whose header is line `h`. */
  function Edited(lines: seq<string>, h: nat, fields: seq<Field>): seq<string>
    requires h < |lines|
  {
    var rest := lines[h + 1..];
    var block := SetFields(BlockOf(rest), fields);
    var post := rest[|BlockOf(rest)|..];
    if AllBlank(block) then lines[..h] + post else lines[..h] + ([SNAPSHOT_KEY] + (block + post))
  }

  lemma HeaderIsHeader()
    ensures IsHeader(SNAPSHOT_KEY)
  {
    assert SNAPSHOT_KEY[0] == 's' && SNAPSHOT_KEY[8] == ':' && |SNAPSHOT_KEY| == 9;
    TrimIndented(SNAPSHOT_KEY);
  }

  lemma HeaderFound(pre: seq<string>, rest: seq<string>)
    requires NoHeader(pre)
    ensures HeaderAt(pre + ([SNAPSHOT_KEY] + rest)) == |pre|
  {
    HeaderIsHeader();
    HeaderConcat(pre, [SNAPSHOT_KEY] + rest);
  }

  /** With every value already there, setting the fields only removes lines, and removes none
      exactly when the block says what is asked. */
  lemma {:induction false} SetShrinks(block: seq<string>, fields: seq<Field>)
    requires ProperFields(fields)
    requires forall i :: 0 <= i < |fields| && fields[i].value != "" ==> Settled(block, fields[i].key, fields[i].value)
    ensures |SetFields(block, fields)| <= |block|
    ensures |SetFields(block, fields)| == |block| <==> AllSettled(block, fields)
    decreases |fields|
  {
    if fields != [] {
      var f, rest := fields[0], fields[1..];
      var next := SetKey(block, f.key, f.value);
      OneShrinks(block, f.key, f.value);
      forall i | 0 <= i < |rest|
        ensures Settled(next, rest[i].key, rest[i].value) <==> Settled(block, rest[i].key, rest[i].value)
        ensures rest[i].value != "" ==> Settled(next, rest[i].key, rest[i].value)
      {
        assert rest[i] == fields[i + 1];
        SetKeepsOthers(block, f.key, f.value, rest[i].key, rest[i].value);
      }
      SetShrinks(next, rest);
      SettledHead(block, fields);
    }
  }

  lemma {:induction false} OneShrinks(block: seq<string>, key: string, value: string)
    requires value == "" || Settled(block, key, value)
    ensures |SetKey(block, key, value)| <= |block|
    ensures |SetKey(block, key, value)| == |block| <==> Settled(block, key, value)
  {
    if block != [] && !KeyLine(block[0], key) { OneShrinks(block[1..], key, value); }
  }

  /** The values are all there once they have been set. */
  lemma {:induction false} ValuesSettled(block: seq<string>, fields: seq<Field>, i: nat)
    requires ProperFields(fields) && i < |fields| && fields[i].value != ""
    ensures Settled(SetFields(block, fields), fields[i].key, fields[i].value)
    decreases |fields|
  {
    var f, rest := fields[0], fields[1..];
    var next := SetKey(block, f.key, f.value);
    if i == 0 {
      SetSettles(block, f.key, f.value);
      OthersKept(next, rest, f.key, f.value);
    } else {
      assert rest[i - 1] == fields[i];
      ValuesSettled(next, rest, i - 1);
    }
  }

  lemma TrimmedValues(block: seq<string>, fields: seq<Field>)
    requires ProperFields(fields)
    requires forall i :: 0 <= i < |fields| && fields[i].value != "" ==> Settled(block, fields[i].key, fields[i].value)
    ensures var t := WithoutBlankEnd(block);
            forall i :: 0 <= i < |fields| && fields[i].value != "" ==> Settled(t, fields[i].key, fields[i].value)
  {
    var t := WithoutBlankEnd(block);
    BlankEnd(block);
    assert block == t + block[|t|..];
    forall i | 0 <= i < |fields| && fields[i].value != "" ensures Settled(t, fields[i].key, fields[i].value) {
      SettledBeforeBlanks(t, block[|t|..], fields[i].key, fields[i].value);
    }
  }

  lemma NotAllBlank(block: seq<string>)
    ensures AllBlank(WithoutBlankEnd(block)) ==> AllBlank(block)
  {
    var t := WithoutBlankEnd(block);
    BlankEnd(block);
    assert block == t + block[|t|..];
  }

  /** Editing what an edit has written: the same block is found, and is left as it is exactly
      when it already says what is asked. */
  lemma EditAgain(pre: seq<string>, block: seq<string>, post: seq<string>, fields: seq<Field>)
    requires NoHeader(pre) && AllInside(block) && Detached(post) && !AllBlank(block) && ProperFields(fields)
    requires forall i :: 0 <= i < |fields| && fields[i].value != "" ==> Settled(block, fields[i].key, fields[i].value)
    ensures var lines := pre + ([SNAPSHOT_KEY] + (block + post));
            HeaderAt(lines) == |pre| && (Edited(lines, |pre|, fields) == lines <==> AllSettled(block, fields))
  {
    HeaderFound(pre, block + post);
    BlockFound(block, post);
    var t := WithoutBlankEnd(block);
    EditedParts(pre, SNAPSHOT_KEY, block + post, fields);
    TrimmedSettled(block, fields);
    TrimmedValues(block, fields);
    SetShrinks(t, fields);
    NotAllBlank(block);
    if AllSettled(block, fields) { SettledFieldsFixed(t, fields); }
    SameWhenFixed(pre, block + post, t, SetFields(t, fields));
  }

  lemma SameWhenFixed(pre: seq<string>, rest: seq<string>, was: seq<string>, now: seq<string>)
    requires was <= rest
    ensures var lines, post := pre + ([SNAPSHOT_KEY] + rest), rest[|was|..];
            && (now == was ==> pre + ([SNAPSHOT_KEY] + (now + post)) == lines)
            && (|now| < |was| ==> pre + ([SNAPSHOT_KEY] + (now + post)) != lines && pre + post != lines)
  {
    assert was + rest[|was|..] == rest;
    var lines, post := pre + ([SNAPSHOT_KEY] + rest), rest[|was|..];
    assert |lines| == |pre| + 1 + |was| + |post|;
    assert |pre + ([SNAPSHOT_KEY] + (now + post))| == |pre| + 1 + |now| + |post|;
    assert |pre + post| == |pre| + |post|;
  }

  lemma EditedParts(pre: seq<string>, header: string, rest: seq<string>, fields: seq<Field>)
    ensures var block, post := SetFields(BlockOf(rest), fields), rest[|BlockOf(rest)|..];
            Edited(pre + ([header] + rest), |pre|, fields) ==
            if AllBlank(block) then pre + post else pre + ([SNAPSHOT_KEY] + (block + post))
  {
    var lines := pre + ([header] + rest);
    assert lines[|pre| + 1..] == rest && lines[..|pre|] == pre;
  }
}
