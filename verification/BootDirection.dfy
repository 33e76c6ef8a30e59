/**
 Boot-direction check: how the migrations recorded in a database relate to the migrations
 bundled in an image.
 */
module BootDirection {
  datatype Direction = Ahead | Behind | Current | Invalid

  datatype BootState = BootState(direction: Direction, unknownApplied: seq<string>, pending: seq<string>)

  function Names(migrations: seq<string>): set<string> {
    set m | m in migrations
  }

  predicate NoDuplicates(migrations: seq<string>) {
    forall i, j :: 0 <= i < j < |migrations| ==> migrations[i] != migrations[j]
  }

  /** The members of `migrations` that are not in `excluded`, in order. */
  function Without(migrations: seq<string>, excluded: set<string>): (kept: seq<string>)
    ensures forall m :: m in kept <==> m in migrations && m !in excluded
  {
    if migrations == [] then []
    else if migrations[0] in excluded then Without(migrations[1..], excluded)
    else [migrations[0]] + Without(migrations[1..], excluded)
  }

  /** The four directions are exactly the four ways two finite sets can compare. */
  function GetMigrationBootDirection(applied: seq<string>, bundled: seq<string>): (state: BootState)
    ensures state.direction == Current <==> Names(applied) == Names(bundled)
    ensures state.direction == Behind <==> Names(applied) < Names(bundled)
    ensures state.direction == Ahead <==> Names(bundled) < Names(applied)
    ensures state.direction == Invalid <==> !(Names(applied) <= Names(bundled)) && !(Names(bundled) <= Names(applied))
    ensures Names(state.unknownApplied) == Names(applied) - Names(bundled)
    ensures Names(state.pending) == Names(bundled) - Names(applied)
    ensures state.unknownApplied == Without(applied, Names(bundled))
    ensures state.pending == Without(bundled, Names(applied))
  {
    var unknownApplied := Without(applied, Names(bundled));
    var pending := Without(bundled, Names(applied));
    assert unknownApplied != [] ==> unknownApplied[0] in Names(applied) - Names(bundled);
    assert pending != [] ==> pending[0] in Names(bundled) - Names(applied);
    if unknownApplied != [] && pending != [] then BootState(Invalid, unknownApplied, pending)
    else if unknownApplied != [] then BootState(Ahead, unknownApplied, [])
    else if pending != [] then BootState(Behind, [], pending)
    else BootState(Current, [], [])
  }

  /** Filtering goes name by name, in order and with repeats; this law and the next one leave it no choice. */
  lemma {:induction false} WithoutAppend(front: seq<string>, back: seq<string>, excluded: set<string>)
    ensures Without(front + back, excluded) == Without(front, excluded) + Without(back, excluded)
  {
    if front == [] {
      assert front + back == back;
    } else {
      assert (front + back)[1..] == front[1..] + back;
      WithoutAppend(front[1..], back, excluded);
    }
  }

  lemma WithoutOne(m: string, excluded: set<string>)
    ensures Without([m], excluded) == if m in excluded then [] else [m]
  {
  }

  /** Recording the first pending migration leaves exactly the rest pending. */
  lemma {:induction false} WithoutNext(bundle: seq<string>, applied: set<string>)
    requires NoDuplicates(bundle)
    requires Without(bundle, applied) != []
    ensures var pending := Without(bundle, applied);
            Without(bundle, applied + {pending[0]}) == pending[1..]
  {
    if bundle[0] in applied {
      WithoutNext(bundle[1..], applied);
    } else {
      WithoutIgnores(bundle[1..], applied, bundle[0]);
    }
  }

  lemma {:induction false} WithoutIgnores(migrations: seq<string>, excluded: set<string>, m: string)
    requires m !in migrations
    ensures Without(migrations, excluded + {m}) == Without(migrations, excluded)
  {
    if migrations != [] {
      WithoutIgnores(migrations[1..], excluded, m);
    }
  }

  /** What is pending after a prefix of the bundle has been applied is the remaining suffix. */
  lemma {:induction false} WithoutPrefix(bundle: seq<string>, k: nat)
    requires NoDuplicates(bundle) && k <= |bundle|
    ensures Without(bundle, Names(bundle[..k])) == bundle[k..]
  {
    if k == 0 {
      WithoutNothing(bundle);
      assert Names(bundle[..0]) == {};
    } else {
      WithoutPrefix(bundle, k - 1);
      WithoutNext(bundle, Names(bundle[..k - 1]));
      assert bundle[..k] == bundle[..k - 1] + [bundle[k - 1]];
      assert Names(bundle[..k]) == Names(bundle[..k - 1]) + {bundle[k - 1]};
    }
  }

  lemma {:induction false} WithoutNothing(migrations: seq<string>)
    ensures Without(migrations, {}) == migrations
  {
    if migrations != [] {
      WithoutNothing(migrations[1..]);
    }
  }
}
