/** Strings in code-point order, and sorting by it. */
module Names {

  predicate Less(a: string, b: string)
  {
    b != [] && (a == [] || a[0] < b[0] || (a[0] == b[0] && Less(a[1..], b[1..])))
  }

  lemma {:induction false} LessTotal(a: string, b: string)
    ensures a == b || Less(a, b) || Less(b, a)
    ensures !(Less(a, b) && Less(b, a)) && (a == b ==> !Less(a, b))
  {
    if a != [] && b != [] {
      LessTotal(a[1..], b[1..]);
      assert a == [a[0]] + a[1..] && b == [b[0]] + b[1..];
    }
  }

  lemma {:induction false} LessTransitive(a: string, b: string, c: string)
    requires Less(a, b) && Less(b, c)
    ensures Less(a, c)
  {
    if a != [] && a[0] == b[0] == c[0] {
      LessTransitive(a[1..], b[1..], c[1..]);
    }
  }

  /** No member comes before `x`. */
  ghost predicate Least(x: string, s: seq<string>) { forall y :: y in s ==> !Less(y, x) }

  ghost predicate Sorted(s: seq<string>) { s == [] || (Least(s[0], s) && Sorted(s[1..])) }

  function Insert(x: string, s: seq<string>): seq<string>
  {
    if s == [] || !Less(s[0], x) then [x] + s else [s[0]] + Insert(x, s[1..])
  }

  function Sort(s: seq<string>): seq<string> { if s == [] then [] else Insert(s[0], Sort(s[1..])) }

  lemma {:induction false} InsertMembers(x: string, s: seq<string>)
    ensures multiset(Insert(x, s)) == multiset{x} + multiset(s)
    ensures forall y :: y in Insert(x, s) <==> y == x || y in s
  {
    if s != [] && Less(s[0], x) {
      InsertMembers(x, s[1..]);
      assert s == [s[0]] + s[1..];
    }
  }

  lemma {:induction false} InsertSorts(x: string, s: seq<string>)
    requires Sorted(s)
    ensures Sorted(Insert(x, s))
  {
    InsertMembers(x, s);
    if s != [] && Less(s[0], x) {
      InsertSorts(x, s[1..]);
      LessTotal(s[0], x);
      assert forall y :: y in s[1..] ==> y in s;
      assert Insert(x, s)[1..] == Insert(x, s[1..]);
    } else {
      LessTotal(x, x);
      forall y | y in s ensures !Less(y, x) {
        LeastBelow(x, s[0], y);
      }
      assert ([x] + s)[1..] == s;
    }
  }

  /** What is not after the least member is not after any member. */
  lemma LeastBelow(x: string, least: string, y: string)
    requires !Less(least, x) && !Less(y, least)
    ensures !Less(y, x)
  {
    if Less(y, x) {
      LessTotal(least, x);
      LessTotal(y, least);
      if y != least {
        if x != least {
          LessTransitive(least, y, x);
        }
      }
    }
  }

  lemma {:induction false} SortSorts(s: seq<string>)
    ensures Sorted(Sort(s)) && multiset(Sort(s)) == multiset(s)
  {
    if s != [] {
      SortSorts(s[1..]);
      InsertSorts(s[0], Sort(s[1..]));
      InsertMembers(s[0], Sort(s[1..]));
      assert s == [s[0]] + s[1..];
    }
  }

  lemma HeadAndTail(a: seq<string>)
    requires a != []
    ensures multiset(a) == multiset{a[0]} + multiset(a[1..]) && a[0] in multiset(a)
  {
    assert a == [a[0]] + a[1..];
  }

  lemma SameHead(a: seq<string>, b: seq<string>)
    requires Sorted(a) && Sorted(b) && a != [] && b != [] && a[0] in b && b[0] in a
    ensures a[0] == b[0]
  {
    LessTotal(a[0], b[0]);
  }

  /** Sorted sequences with the same members, equally often, are equal. */
  lemma {:induction false} SortedUnique(a: seq<string>, b: seq<string>)
    requires Sorted(a) && Sorted(b) && multiset(a) == multiset(b)
    ensures a == b
  {
    if a == [] {
      assert |multiset(b)| == 0;
    } else {
      assert a[0] in multiset(b);
      HeadAndTail(a);
      HeadAndTail(b);
      SameHead(a, b) by {
        assert b[0] in multiset(a);
      }
      SortedUnique(a[1..], b[1..]) by {
        assert multiset(a[1..]) == multiset(a) - multiset{a[0]};
        assert multiset(b[1..]) == multiset(b) - multiset{b[0]};
      }
      assert a == [a[0]] + a[1..] && b == [b[0]] + b[1..];
    }
  }
}
