/** `Array.prototype.sort` with a comparator, as far as callers rely on it. */
module Sorting {
  import opened Prelude

  type Order = (string, string) -> bool

  ghost predicate StrictOrder(lt: Order)
  {
    && (forall a :: !lt(a, a))
    && (forall a, b, c :: lt(a, b) && lt(b, c) ==> lt(a, c))
  }

  ghost predicate Sorted(lt: Order, s: seq<string>) { forall i, j | 0 <= i < j < |s| :: !lt(s[j], s[i]) }

  function Insert(lt: Order, s: seq<string>, x: string): seq<string>
  {
    if s == [] || lt(x, s[0]) then [x] + s else [s[0]] + Insert(lt, s[1..], x)
  }

  function Sort(lt: Order, s: seq<string>): seq<string>
  {
    if s == [] then [] else Insert(lt, Sort(lt, s[1..]), s[0])
  }

  lemma {:induction false} InsertPermutes(lt: Order, s: seq<string>, x: string)
    ensures multiset(Insert(lt, s, x)) == multiset(s) + multiset{x}
  {
    if s != [] && !lt(x, s[0]) {
      InsertPermutes(lt, s[1..], x);
      assert s == [s[0]] + s[1..];
    }
  }

  lemma {:induction false} InsertSorts(lt: Order, s: seq<string>, x: string)
    requires StrictOrder(lt) && Sorted(lt, s)
    ensures Sorted(lt, Insert(lt, s, x))
  {
    if s != [] && lt(x, s[0]) {
      forall j | 0 <= j < |s| ensures !lt(s[j], x) {
        assert !lt(s[j], s[0]);
      }
    } else if s != [] {
      InsertSorts(lt, s[1..], x);
      InsertPermutes(lt, s[1..], x);
      var rest := Insert(lt, s[1..], x);
      forall j | 0 <= j < |rest| ensures !lt(rest[j], s[0]) {
        assert rest[j] in multiset(rest);
        if rest[j] != x {
          assert rest[j] in s[1..];
          var k :| 0 <= k < |s[1..]| && s[1..][k] == rest[j];
          assert s[k + 1] == rest[j];
        }
      }
    }
  }

  /** Sorting permutes, and leaves the result in ascending order. */
  lemma {:induction false} SortSorts(lt: Order, s: seq<string>)
    ensures multiset(Sort(lt, s)) == multiset(s)
    ensures StrictOrder(lt) ==> Sorted(lt, Sort(lt, s))
  {
    if s != [] {
      SortSorts(lt, s[1..]);
      InsertPermutes(lt, Sort(lt, s[1..]), s[0]);
      if StrictOrder(lt) { InsertSorts(lt, Sort(lt, s[1..]), s[0]); }
      assert s == [s[0]] + s[1..];
    }
  }

  lemma SortMembers(lt: Order, s: seq<string>, x: string)
    ensures x in Sort(lt, s) <==> x in s
  {
    SortSorts(lt, s);
    assert x in multiset(Sort(lt, s)) <==> x in Sort(lt, s);
    assert x in multiset(s) <==> x in s;
  }
}
