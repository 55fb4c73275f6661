/** `String.prototype.split` and `join`, as far as the address and path code uses them. */
module Texts {

  function Split(s: string, c: char): (parts: seq<string>)
    ensures parts != []
  {
    if s == [] then [[]]
    else
      var rest := Split(s[1..], c);
      if s[0] == c then [[]] + rest else [[s[0]] + rest[0]] + rest[1..]
  }

  function Join(parts: seq<string>, c: char): string
    requires parts != []
  {
    if |parts| == 1 then parts[0] else parts[0] + [c] + Join(parts[1..], c)
  }

  ghost predicate Without(parts: seq<string>, c: char) {
    forall p | p in parts :: c !in p
  }

  lemma {:induction false} SplitClean(s: string, c: char)
    ensures Without(Split(s, c), c)
  {
    if s != [] {
      SplitClean(s[1..], c);
      var rest := Split(s[1..], c);
      forall p | p in Split(s, c) ensures c !in p {
        if s[0] == c {
          assert p == [] || p in rest;
        } else {
          assert rest[0] in rest;
          assert p == [s[0]] + rest[0] || p in rest;
        }
      }
    }
  }

  lemma {:induction false} JoinSplit(s: string, c: char)
    ensures Join(Split(s, c), c) == s
  {
    if s != [] {
      JoinSplit(s[1..], c);
      var rest := Split(s[1..], c);
      if s[0] == c {
        assert ([[]] + rest)[1..] == rest;
        assert [] + [c] + Join(rest, c) == s;
      } else if |rest| == 1 {
        assert Split(s, c) == [[s[0]] + rest[0]];
      } else {
        assert Split(s, c)[1..] == rest[1..];
        assert [s[0]] + rest[0] + [c] + Join(rest[1..], c) == [s[0]] + (rest[0] + [c] + Join(rest[1..], c));
      }
    }
  }

  /** Splitting at the separator between a clean head and anything. */
  lemma {:induction false} SplitHead(head: string, c: char, tail: string)
    requires c !in head
    ensures Split(head + [c] + tail, c) == [head] + Split(tail, c)
  {
    var s := head + [c] + tail;
    if head == [] {
      assert s[1..] == tail;
    } else {
      assert s[1..] == head[1..] + [c] + tail;
      SplitHead(head[1..], c, tail);
      assert [s[0]] + head[1..] == head;
    }
  }

  lemma {:induction false} SplitOne(s: string, c: char)
    requires c !in s
    ensures Split(s, c) == [s]
  {
    if s != [] {
      SplitOne(s[1..], c);
      assert [s[0]] + s[1..] == s;
    }
  }

  lemma {:induction false} SplitJoin(parts: seq<string>, c: char)
    requires parts != [] && Without(parts, c)
    ensures Split(Join(parts, c), c) == parts
  {
    if |parts| == 1 {
      SplitOne(parts[0], c);
    } else {
      SplitJoin(parts[1..], c);
      SplitHead(parts[0], c, Join(parts[1..], c));
    }
  }

  /** Splitting distributes over a separator in the middle. */
  lemma {:induction false} SplitAppend(a: string, c: char, b: string)
    ensures Split(a + [c] + b, c) == Split(a, c) + Split(b, c)
  {
    var s := a + [c] + b;
    if a == [] {
      assert s[1..] == b;
    } else {
      assert s[1..] == a[1..] + [c] + b;
      SplitAppend(a[1..], c, b);
      var rest := Split(a[1..], c);
      if a[0] != c {
        assert Split(s, c) == [[a[0]] + rest[0]] + (rest + Split(b, c))[1..];
      }
    }
  }

  lemma {:induction false} JoinAppend(a: seq<string>, b: seq<string>, c: char)
    requires a != [] && b != []
    ensures Join(a + b, c) == Join(a, c) + [c] + Join(b, c)
  {
    if |a| == 1 {
      assert (a + b)[1..] == b;
    } else {
      assert (a + b)[1..] == a[1..] + b;
      JoinAppend(a[1..], b, c);
      assert a[0] + [c] + (Join(a[1..], c) + [c] + Join(b, c)) == a[0] + [c] + Join(a[1..], c) + [c] + Join(b, c);
    }
  }

  // ---- splitting at a double separator ----------------------------------------

  /** `s.split('::')` for c == ':': leftmost, non-overlapping matches. */
  function SplitDouble(s: string, c: char): (parts: seq<string>)
    ensures parts != []
  {
    if |s| < 2 then [s]
    else if s[0] == c && s[1] == c then [[]] + SplitDouble(s[2..], c)
    else
      var rest := SplitDouble(s[1..], c);
      [[s[0]] + rest[0]] + rest[1..]
  }

  ghost predicate NoDouble(s: string, c: char) {
    forall i | 0 <= i < |s| - 1 :: !(s[i] == c && s[i + 1] == c)
  }

  lemma {:induction false} SplitDoubleNone(s: string, c: char)
    requires NoDouble(s, c)
    ensures SplitDouble(s, c) == [s]
  {
    if |s| >= 2 {
      assert !(s[0] == c && s[0 + 1] == c);
      assert NoDouble(s[1..], c) by {
        forall i | 0 <= i < |s[1..]| - 1 ensures !(s[1..][i] == c && s[1..][i + 1] == c) {
          assert !(s[i + 1] == c && s[i + 1 + 1] == c);
        }
      }
      SplitDoubleNone(s[1..], c);
      assert [s[0]] + s[1..] == s;
    }
  }

  /** The first double separator is the one after a part that has none and does not end in one. */
  lemma {:induction false} SplitDoubleAt(a: string, c: char, b: string)
    requires NoDouble(a, c) && (a != [] ==> a[|a| - 1] != c)
    ensures SplitDouble(a + [c, c] + b, c) == [a] + SplitDouble(b, c)
  {
    var s := a + [c, c] + b;
    if a == [] {
      assert s[2..] == b;
    } else {
      if |a| >= 2 {
        assert !(a[0] == c && a[0 + 1] == c);
      }
      assert s[1..] == a[1..] + [c, c] + b;
      assert NoDouble(a[1..], c) by {
        forall i | 0 <= i < |a[1..]| - 1 ensures !(a[1..][i] == c && a[1..][i + 1] == c) {
          assert !(a[i + 1] == c && a[i + 1 + 1] == c);
        }
      }
      SplitDoubleAt(a[1..], c, b);
      assert [a[0]] + a[1..] == a;
    }
  }

  lemma {:induction false} JoinDouble(s: string, c: char)
    ensures |SplitDouble(s, c)| == 1 ==> SplitDouble(s, c)[0] == s
    ensures |SplitDouble(s, c)| == 2 ==> s == SplitDouble(s, c)[0] + [c, c] + SplitDouble(s, c)[1]
  {
    if |s| >= 2 {
      if s[0] == c && s[1] == c {
        JoinDouble(s[2..], c);
        assert s == [] + [c, c] + s[2..];
      } else {
        JoinDouble(s[1..], c);
        var rest := SplitDouble(s[1..], c);
        assert s == [s[0]] + s[1..];
        if |rest| == 2 {
          assert [s[0]] + (rest[0] + [c, c] + rest[1]) == [s[0]] + rest[0] + [c, c] + rest[1];
        }
      }
    }
  }
}
