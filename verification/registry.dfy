/** The driver registry: a Ruby `Set`, observed as a duplicate-free sequence
    in insertion order (Ruby sets iterate in the order elements were first
    added, and `inject`/`each` over the registry depend on that order). */
module Registry {

  /** The registry invariant: no element occurs twice. */
  predicate NoDups<T(==)>(s: seq<T>) {
    forall i, j | 0 <= i < j < |s| :: s[i] != s[j]
  }

  /** The distinct elements of a sequence. */
  function Elements<T>(s: seq<T>): set<T> {
    set x | x in s
  }

  /** `Set.new`: the registry the process starts with. */
  function Empty<T(==)>(): (r: seq<T>)
    ensures NoDups(r)
    ensures Elements(r) == {}
  {
    []
  }

  /** `Set#<<`: adds `x` unless it is already present; a new element is
      iterated after all existing ones. */
  function Add<T(==)>(s: seq<T>, x: T): (r: seq<T>)
    ensures NoDups(s) ==> NoDups(r)
    ensures Elements(r) == Elements(s) + {x}
    ensures |s| <= |r| <= |s| + 1
    ensures r[..|s|] == s
    ensures |r| == |s| <==> x in s
  {
    if x in s then s else s + [x]
  }

  /** `Set#delete`: removes `x` if present; every other element keeps its
      relative position. */
  function Delete<T(==)>(s: seq<T>, x: T): (r: seq<T>)
    ensures Elements(r) == Elements(s) - {x}
    ensures x !in s ==> r == s
    ensures |r| <= |s|
    ensures NoDups(s) ==> NoDups(r)
  {
    if |s| == 0 then []
    else
      var rest := Delete(s[1..], x);
      assert Elements(s) == {s[0]} + Elements(s[1..]) by {
        assert s == [s[0]] + s[1..];
      }
      if s[0] == x then
        assert NoDups(s) ==> NoDups(rest) by {
          if NoDups(s) { TailNoDups(s); }
        }
        rest
      else
        ElementsCons(s[0], rest);
        assert NoDups(s) ==> NoDups([s[0]] + rest) by {
          if NoDups(s) {
            TailNoDups(s);
            assert s[0] !in Elements(s[1..]);
            assert s[0] !in Elements(rest);
            ConsNoDups(s[0], rest);
          }
        }
        [s[0]] + rest
  }

  /** Dropping the first element keeps a sequence duplicate-free, and the
      dropped element does not occur in the rest. */
  lemma TailNoDups<T>(s: seq<T>)
    requires NoDups(s) && |s| > 0
    ensures NoDups(s[1..])
    ensures s[0] !in s[1..]
  {
  }

  lemma ElementsCons<T>(x: T, t: seq<T>)
    ensures Elements([x] + t) == {x} + Elements(t)
  {
  }

  lemma ConsNoDups<T>(x: T, t: seq<T>)
    requires NoDups(t) && x !in t
    ensures NoDups([x] + t)
  {
  }

  /** `Set#clear`. */
  function Clear<T(==)>(s: seq<T>): (r: seq<T>)
    ensures Elements(r) == {}
  {
    []
  }

  /** `Set#include?`. */
  predicate Includes<T(==)>(s: seq<T>, x: T) {
    x in s
  }

  /** The registry-changing calls: `<<`, `delete` and `clear`. */
  datatype Change<T> = AddOp(x: T) | DeleteOp(x: T) | ClearOp

  function Apply<T(==)>(s: seq<T>, c: Change<T>): seq<T> {
    match c
    case AddOp(x) => Add(s, x)
    case DeleteOp(x) => Delete(s, x)
    case ClearOp => Clear(s)
  }

  /** Applying a history of changes, first to last. */
  function ApplyAll<T(==)>(s: seq<T>, cs: seq<Change<T>>): seq<T>
    decreases |cs|
  {
    if |cs| == 0 then s else ApplyAll(Apply(s, cs[0]), cs[1..])
  }

  /** Reference view of one handle's membership: a flag that `<<` of the
      handle sets and a `delete` of it or a `clear` resets; changes about
      other handles leave it alone. */
  function Present<T(==)>(was: bool, cs: seq<Change<T>>, x: T): bool
    decreases |cs|
  {
    if |cs| == 0 then was
    else
      var now := match cs[0]
        case AddOp(y) => was || y == x
        case DeleteOp(y) => was && y != x
        case ClearOp => false;
      Present(now, cs[1..], x)
  }

  /** Over any history of `<<`, `delete` and `clear`, `include?` answers as
      the reference flag does, and the registry stays duplicate-free. */
  lemma {:induction false} MembershipFollowsHistory<T>(s: seq<T>, cs: seq<Change<T>>, x: T)
    requires NoDups(s)
    ensures NoDups(ApplyAll(s, cs))
    ensures Includes(ApplyAll(s, cs), x) == Present(Includes(s, x), cs, x)
    decreases |cs|
  {
    if |cs| > 0 {
      var s' := Apply(s, cs[0]);
      assert Includes(s', x) <==> x in Elements(s');
      assert Includes(s, x) <==> x in Elements(s);
      MembershipFollowsHistory(s', cs[1..], x);
    }
  }

  /** `Set#length`: for a registry it is the number of distinct members. */
  function Length<T(==)>(s: seq<T>): (n: nat)
    requires NoDups(s)
    ensures n == |Elements(s)|
  {
    DistinctCount(s);
    |s|
  }

  /** A duplicate-free sequence has as many positions as distinct elements. */
  lemma {:induction false} DistinctCount<T>(s: seq<T>)
    requires NoDups(s)
    ensures |Elements(s)| == |s|
  {
    if |s| > 0 {
      var t := s[1..];
      TailNoDups(s);
      DistinctCount(t);
      assert Elements(s) == {s[0]} + Elements(t) by {
        ElementsCons(s[0], t);
        assert s == [s[0]] + t;
      }
    }
  }

  /** Registering a list of handles one after another, from left to right. */
  function AddAll<T(==)>(s: seq<T>, xs: seq<T>): (r: seq<T>)
    decreases |xs|
  {
    if |xs| == 0 then s else AddAll(Add(s, xs[0]), xs[1..])
  }

  /** Repeated registration collapses duplicates: starting from an empty
      registry, the length is the number of distinct handles registered. */
  lemma {:induction false} AddAllCountsDistinct<T>(xs: seq<T>)
    ensures NoDups(AddAll(Empty<T>(), xs))
    ensures Length(AddAll(Empty<T>(), xs)) == |Elements(xs)|
  {
    AddAllNoDups(Empty<T>(), xs);
    AddAllElements(Empty<T>(), xs);
  }

  lemma {:induction false} AddAllNoDups<T>(s: seq<T>, xs: seq<T>)
    requires NoDups(s)
    ensures NoDups(AddAll(s, xs))
    decreases |xs|
  {
    if |xs| > 0 {
      AddAllNoDups(Add(s, xs[0]), xs[1..]);
    }
  }

  lemma {:induction false} AddAllElements<T>(s: seq<T>, xs: seq<T>)
    ensures Elements(AddAll(s, xs)) == Elements(s) + Elements(xs)
    decreases |xs|
  {
    if |xs| > 0 {
      var s' := Add(s, xs[0]);
      AddAllElements(s', xs[1..]);
      assert xs == [xs[0]] + xs[1..];
      ElementsCons(xs[0], xs[1..]);
      calc {
        Elements(AddAll(s, xs));
        Elements(AddAll(s', xs[1..]));
        Elements(s') + Elements(xs[1..]);
        Elements(s) + {xs[0]} + Elements(xs[1..]);
        Elements(s) + Elements(xs);
      }
    }
  }

  /** Adding a handle three times gives a registry of length one. */
  lemma AddThriceIsOne<T>(x: T)
    ensures Length(Add(Add(Add(Empty(), x), x), x)) == 1
  {
  }

  /** Adding a handle that is already registered changes nothing. */
  lemma AddPresentIsNoOp<T>(s: seq<T>, x: T)
    requires x in s
    ensures Add(s, x) == s
  {
  }

  /** Deleting the last-added element undoes the addition. */
  lemma {:induction false} DeleteLast<T>(s: seq<T>, x: T)
    requires x !in s
    ensures Delete(s + [x], x) == s
  {
    if |s| > 0 {
      assert (s + [x])[1..] == s[1..] + [x];
      DeleteLast(s[1..], x);
    } else {
      assert [x][1..] == [];
    }
  }

  /** Add then delete: the handle is gone, and if it was new the registry is
      exactly as before, otherwise it is as if only the delete had happened. */
  lemma AddThenDelete<T>(s: seq<T>, x: T)
    ensures x !in Delete(Add(s, x), x)
    ensures x !in s ==> Delete(Add(s, x), x) == s
    ensures x in s ==> Delete(Add(s, x), x) == Delete(s, x)
  {
    if x !in s {
      DeleteLast(s, x);
    }
  }

  /** The registry test's three observations: a handle is not included
      after `clear`, is included after `<<`, and is not after `delete`. */
  lemma IncludeAfterAddAndDelete<T>(s: seq<T>, x: T)
    ensures !Includes(Clear(s), x)
    ensures Includes(Add(Clear(s), x), x)
    ensures !Includes(Delete(Add(Clear(s), x), x), x)
  {
  }

  /** Deleting a member of a registry splices it out at its position: the
      elements before and after it keep their order. */
  lemma {:induction false} DeleteSplices<T>(s: seq<T>, k: nat)
    requires NoDups(s)
    requires k < |s|
    ensures Delete(s, s[k]) == s[..k] + s[k + 1..]
  {
    TailNoDups(s);
    if k > 0 {
      var t := s[1..];
      assert t[k - 1] == s[k];
      DeleteSplices(t, k - 1);
      assert s[0] != s[k];
      assert s[..k] == [s[0]] + t[..k - 1];
      assert s[k + 1..] == t[k..];
    }
  }
}
