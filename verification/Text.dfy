/** Splitting a string at a separator and joining it again. */
module Text {

  function Split(s: string, sep: char): (parts: seq<string>)
    ensures |parts| >= 1
  {
    if s == "" then [""]
    else if s[0] == sep then [""] + Split(s[1..], sep)
    else
      var rest := Split(s[1..], sep);
      [[s[0]] + rest[0]] + rest[1..]
  }

  function Join(parts: seq<string>, sep: char): string {
    if parts == [] then ""
    else if |parts| == 1 then parts[0]
    else parts[0] + [sep] + Join(parts[1..], sep)
  }

  predicate Free(s: string, c: char) {
    c !in s
  }

  ghost predicate AllFree(parts: seq<string>, c: char) {
    forall i :: 0 <= i < |parts| ==> Free(parts[i], c)
  }

  lemma {:induction false} SplitIsFree(s: string, sep: char)
    ensures AllFree(Split(s, sep), sep)
  {
    if s != "" { SplitIsFree(s[1..], sep); }
  }

  lemma JoinCons(head: string, rest: seq<string>, sep: char)
    requires rest != []
    ensures Join([head] + rest, sep) == head + [sep] + Join(rest, sep)
  {
    assert ([head] + rest)[1..] == rest;
  }

  /** A longer first part makes a longer text. */
  lemma JoinFirst(head: string, parts: seq<string>, sep: char)
    requires parts != []
    ensures Join([head + parts[0]] + parts[1..], sep) == head + Join(parts, sep)
  {
    if |parts| > 1 {
      JoinCons(head + parts[0], parts[1..], sep);
      JoinCons(parts[0], parts[1..], sep);
      assert [parts[0]] + parts[1..] == parts;
    } else {
      assert parts[1..] == [];
    }
  }

  lemma {:induction false} JoinOfSplit(s: string, sep: char)
    ensures Join(Split(s, sep), sep) == s
  {
    if s != "" {
      JoinOfSplit(s[1..], sep);
      var rest := Split(s[1..], sep);
      assert s == [s[0]] + s[1..];
      if s[0] == sep {
        JoinCons("", rest, sep);
      } else {
        JoinFirst([s[0]], rest, sep);
      }
    }
  }

  /** A separator-free head in front of a separator is the first part. */
  lemma {:induction false} SplitHead(head: string, tail: string, sep: char)
    requires Free(head, sep)
    ensures Split(head + [sep] + tail, sep) == [head] + Split(tail, sep)
  {
    var s := head + [sep] + tail;
    if head == "" {
      assert s[1..] == tail;
    } else {
      assert s[1..] == head[1..] + [sep] + tail;
      SplitHead(head[1..], tail, sep);
      assert [s[0]] + head[1..] == head;
    }
  }

  lemma {:induction false} SplitFree(s: string, sep: char)
    requires Free(s, sep)
    ensures Split(s, sep) == [s]
  {
    if s != "" {
      SplitFree(s[1..], sep);
      assert [s[0]] + s[1..] == s;
    }
  }

  lemma {:induction false} SplitOfJoin(parts: seq<string>, sep: char)
    requires parts != [] && AllFree(parts, sep)
    ensures Split(Join(parts, sep), sep) == parts
  {
    if |parts| == 1 {
      SplitFree(parts[0], sep);
    } else {
      SplitOfJoin(parts[1..], sep);
      SplitHead(parts[0], Join(parts[1..], sep), sep);
      assert parts == [parts[0]] + parts[1..];
    }
  }
}

/** Go's string order. */
module StringOrder {

  predicate Less(a: string, b: string) {
    b != [] && (a == [] || a[0] < b[0] || (a[0] == b[0] && Less(a[1..], b[1..])))
  }

  lemma {:induction false} LessIsStrict(a: string, b: string)
    ensures !(Less(a, b) && Less(b, a))
    ensures !Less(a, a)
    ensures Less(a, b) || Less(b, a) || a == b
  {
    if a != [] && b != [] {
      LessIsStrict(a[1..], b[1..]);
      assert a == [a[0]] + a[1..] && b == [b[0]] + b[1..];
    }
    if a != [] { LessIsStrict(a[1..], a[1..]); }
  }

  /** The strings agree before this place; there the first one ends or has the smaller character. */
  ghost predicate LessAt(a: string, b: string, i: int) {
    0 <= i < |b| && i <= |a| && a[..i] == b[..i] && (i == |a| || a[i] < b[i])
  }

  lemma LessOneOn(a: string, b: string, i: int)
    requires a != "" && b != "" && a[0] == b[0]
    ensures LessAt(a, b, i + 1) <==> LessAt(a[1..], b[1..], i) || (i == -1 && LessAt(a, b, 0))
  {
    if 0 <= i < |b[1..]| && i <= |a[1..]| {
      assert a[..i + 1] == [a[0]] + a[1..][..i] && b[..i + 1] == [b[0]] + b[1..][..i];
      assert a[1..][..i] == a[..i + 1][1..] && b[1..][..i] == b[..i + 1][1..];
    }
  }

  lemma SameHead(a: string, b: string, i: int)
    ensures 0 < i <= |a| && i <= |b| && a[..i] == b[..i] ==> a[0] == b[0]
  {
    if 0 < i <= |a| && i <= |b| { assert a[0] == a[..i][0] && b[0] == b[..i][0]; }
  }

  lemma {:induction false} LessExact(a: string, b: string)
    ensures Less(a, b) <==> exists i :: LessAt(a, b, i)
  {
    if a == "" || b == "" {
      assert b != "" ==> LessAt(a, b, 0);
    } else if a[0] == b[0] {
      LessExact(a[1..], b[1..]);
      assert !LessAt(a, b, 0);
      forall i { LessOneOn(a, b, i); }
      hide LessAt;
      if i :| LessAt(a, b, i) { LessOneOn(a, b, i - 1); }
      if i :| LessAt(a[1..], b[1..], i) { assert LessAt(a, b, i + 1); }
    } else {
      assert a[0] < b[0] ==> LessAt(a, b, 0);
      forall i { SameHead(a, b, i); }
    }
  }

  lemma {:induction false} LessIsTransitive(a: string, b: string, c: string)
    requires Less(a, b) && Less(b, c)
    ensures Less(a, c)
  {
    if a != [] && a[0] == b[0] && b[0] == c[0] {
      LessIsTransitive(a[1..], b[1..], c[1..]);
    }
  }
}
