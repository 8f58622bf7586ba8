/** The order of Go's strings, code point by code point, and sorting by it. */
module StringOrder {

  function Less(a: string, b: string): bool {
    b != [] && (a == [] || a[0] < b[0] || (a[0] == b[0] && Less(a[1..], b[1..])))
  }

  /** The first place where they differ decides, and a prefix comes first. */
  lemma {:induction false} LessIff(a: string, b: string)
    ensures Less(a, b) <==>
            exists i :: 0 <= i <= |a| && i < |b| && a[..i] == b[..i] && (i == |a| || a[i] < b[i])
  {
    if a == [] {
      if b != [] { assert a[..0] == b[..0]; }
    } else if b != [] {
      LessIff(a[1..], b[1..]);
      if Less(a, b) {
        if a[0] < b[0] {
          assert a[..0] == b[..0];
        } else {
          var i :| 0 <= i <= |a[1..]| && i < |b[1..]| && a[1..][..i] == b[1..][..i]
                   && (i == |a[1..]| || a[1..][i] < b[1..][i]);
          assert a[..i + 1] == [a[0]] + a[1..][..i] && b[..i + 1] == [b[0]] + b[1..][..i];
        }
      }
      if i :| 0 <= i <= |a| && i < |b| && a[..i] == b[..i] && (i == |a| || a[i] < b[i]) {
        if i > 0 {
          assert a[0] == a[..i][0] == b[..i][0] == b[0];
          assert a[1..][..i - 1] == a[..i][1..] && b[1..][..i - 1] == b[..i][1..];
        }
      }
    }
  }

  lemma {:induction false} LessAsymmetric(a: string, b: string)
    ensures !(Less(a, b) && Less(b, a))
  {
    if a != [] && b != [] { LessAsymmetric(a[1..], b[1..]); }
  }

  lemma {:induction false} LessTotal(a: string, b: string)
    ensures a == b || Less(a, b) || Less(b, a)
  {
    if a != [] && b != [] && a[0] == b[0] {
      LessTotal(a[1..], b[1..]);
      assert a == [a[0]] + a[1..] && b == [b[0]] + b[1..];
    }
  }

  lemma {:induction false} LessTransitive(a: string, b: string, c: string)
    requires Less(a, b) && Less(b, c)
    ensures Less(a, c)
  {
    if a != [] && a[0] == b[0] == c[0] { LessTransitive(a[1..], b[1..], c[1..]); }
  }

  lemma NotLessTransitive(a: string, b: string, c: string)
    requires !Less(b, a) && !Less(c, b)
    ensures !Less(c, a)
  {
    LessTotal(a, b);
    LessTotal(b, c);
    if a != b && b != c {
      LessTransitive(a, b, c);
      LessAsymmetric(a, c);
    }
  }

  // ---- Sorting ---------------------------------------------------------------------------------

  ghost predicate Ascending(s: seq<string>) {
    forall i, j :: 0 <= i < j < |s| ==> !Less(s[j], s[i])
  }

  function Insert(x: string, s: seq<string>): seq<string> {
    if s != [] && Less(s[0], x) then [s[0]] + Insert(x, s[1..]) else [x] + s
  }

  function SortStrings(s: seq<string>): seq<string> {
    if s == [] then [] else Insert(s[0], SortStrings(s[1..]))
  }

  ghost predicate NoneBefore(x: string, s: seq<string>) { forall i :: 0 <= i < |s| ==> !Less(s[i], x) }

  lemma ConsAscending(x: string, s: seq<string>)
    ensures Ascending([x] + s) <==> Ascending(s) && NoneBefore(x, s)
  {
    var all := [x] + s;
    if Ascending(all) {
      forall i, j | 0 <= i < j < |s| ensures !Less(s[j], s[i]) {
        assert all[i + 1] == s[i] && all[j + 1] == s[j];
      }
      forall i | 0 <= i < |s| ensures !Less(s[i], x) { assert all[i + 1] == s[i] && all[0] == x; }
    }
  }

  lemma {:induction false} InsertAscending(x: string, s: seq<string>, least: string)
    requires Ascending(s)
    ensures Ascending(Insert(x, s)) && multiset(Insert(x, s)) == multiset(s) + multiset{x}
    ensures NoneBefore(least, s) && !Less(x, least) ==> NoneBefore(least, Insert(x, s))
  {
    if s != [] {
      assert s == [s[0]] + s[1..];
      ConsAscending(s[0], s[1..]);
      LessAsymmetric(s[0], x);
    }
    if s != [] && Less(s[0], x) {
      InsertAscending(x, s[1..], least);
      InsertAscending(x, s[1..], s[0]);
      ConsAscending(s[0], Insert(x, s[1..]));
    } else {
      forall i | 0 <= i < |s| ensures !Less(s[i], x) {
        if i > 0 { NotLessTransitive(x, s[0], s[i]); }
      }
      ConsAscending(x, s);
    }
  }

  /** Sorting keeps what is there and puts it in order. */
  lemma {:induction false} SortStringsIs(s: seq<string>)
    ensures Ascending(SortStrings(s)) && multiset(SortStrings(s)) == multiset(s)
  {
    if s != [] {
      assert s == [s[0]] + s[1..];
      SortStringsIs(s[1..]);
      InsertAscending(s[0], SortStrings(s[1..]), "");
    }
  }

  lemma FirstSame(a: seq<string>, b: seq<string>)
    requires a != [] && b != [] && Ascending(a) && Ascending(b) && multiset(a) == multiset(b)
    ensures a[0] == b[0]
  {
    assert a[0] in multiset(b) && b[0] in multiset(a);
    var i :| 0 <= i < |b| && b[i] == a[0];
    var j :| 0 <= j < |a| && a[j] == b[0];
    LessTotal(a[0], b[0]);
    assert i > 0 ==> !Less(b[i], b[0]);
    assert j > 0 ==> !Less(a[j], a[0]);
  }

  lemma TailOf(a: seq<string>)
    requires a != [] && Ascending(a)
    ensures Ascending(a[1..]) && multiset(a[1..]) == multiset(a) - multiset{a[0]} && a == [a[0]] + a[1..]
  {
    assert a == [a[0]] + a[1..];
  }

  /** There is one ascending arrangement of what is there, whatever algorithm finds it. */
  lemma {:induction false} AscendingUnique(a: seq<string>, b: seq<string>)
    requires Ascending(a) && Ascending(b) && multiset(a) == multiset(b)
    ensures a == b
    decreases |a|
  {
    assert |multiset(a)| == |multiset(b)|;
    if a != [] {
      FirstSame(a, b);
      TailOf(a);
      TailOf(b);
      AscendingUnique(a[1..], b[1..]);
    }
  }

  /** So sorting forgets the order in which a list came, and nothing else. */
  lemma SortForgetsOrder(a: seq<string>, b: seq<string>)
    ensures SortStrings(a) == SortStrings(b) <==> multiset(a) == multiset(b)
  {
    SortStringsIs(a);
    SortStringsIs(b);
    if multiset(a) == multiset(b) { AscendingUnique(SortStrings(a), SortStrings(b)); }
  }
}
