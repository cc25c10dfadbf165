/** The consistency contract of the ModuleFinder interface, and what the
    `concat` and `empty` combinators are proved to do with respect to it. */
module FinderContract {
  import opened Wrappers
  import opened ModuleFinder

  /**
   * The contract every finder must honour: a located reference carries the
   * requested name and is a member of the set `findAll` returns; every
   * member of that set is what `find` locates under its name; so the set
   * holds at most one reference per name.
   */
  ghost predicate HonoursContract(f: Finder)
  {
    && (forall n: string :: f.Find(Some(n)).Success? && f.Find(Some(n)).value.Some? ==>
          && f.Find(Some(n)).value.value.Name() == n
          && (f.FindAll().Success? ==> f.Find(Some(n)).value.value in f.FindAll().value))
    && (f.FindAll().Success? ==>
          forall m | m in f.FindAll().value :: f.Find(Some(m.Name())) == Success(Some(m)))
    && (f.FindAll().Success? ==>
          forall m1, m2 | m1 in f.FindAll().value && m2 in f.FindAll().value ::
            m1.Name() == m2.Name() ==> m1 == m2)
  }

  /** Whatever `find` locates is a member of the set `findAll` returns. */
  lemma {:induction false} FoundIsMember(f: Finder, n: string)
    requires f.Valid() && f.FindAll().Success?
    requires f.Find(Some(n)).Success? && f.Find(Some(n)).value.Some?
    ensures f.Find(Some(n)).value.value in f.FindAll().value
  {
    match f
    case Catalog(modules) =>
    case Empty =>
    case Concat(first, second) =>
      var m := f.Find(Some(n)).value.value;
      var inFirst, inSecond := first.FindAll().value, second.FindAll().value;
      if first.Find(Some(n)).value.Some? {
        FoundIsMember(first, n);
        assert m in inFirst;
      } else {
        FoundIsMember(second, n);
        assert m in inSecond;
      }
      assert n in Names(inFirst + inSecond);
  }

  /** Every well-formed finder honours the contract; in particular every
      concatenation of well-formed finders does. */
  lemma {:induction false} ContractHolds(f: Finder)
    requires f.Valid()
    ensures HonoursContract(f)
  {
    forall n: string | f.Find(Some(n)).Success? && f.Find(Some(n)).value.Some? && f.FindAll().Success?
      ensures f.Find(Some(n)).value.value in f.FindAll().value
    {
      FoundIsMember(f, n);
    }
  }

  /**
   * `concat(first, second).findAll()` holds every reference `first` locates,
   * and the references of `second` whose names `first` does not locate, and
   * nothing else: exactly one reference for each name of either set, `first`
   * winning on a shared name.
   */
  lemma {:induction false} ConcatFindAll(first: Finder, second: Finder)
    requires first.Valid() && second.Valid()
    requires first.FindAll().Success? && second.FindAll().Success?
    ensures Concat(first, second).FindAll().Success?
    ensures
      var inFirst, inSecond, all := first.FindAll().value, second.FindAll().value, Concat(first, second).FindAll().value;
      && Names(all) == Names(inFirst) + Names(inSecond)
      && inFirst <= all
      && (forall m | m in inSecond && m.Name() !in Names(inFirst) :: m in all)
      && (forall m | m in all :: m in inFirst || (m in inSecond && m.Name() !in Names(inFirst)))
  {
    var f := Concat(first, second);
    var inFirst, inSecond := first.FindAll().value, second.FindAll().value;
    var all := f.FindAll().value;
    forall m | m in inFirst ensures m in all {
      FoundIsMember(f, m.Name());
    }
    forall m | m in inSecond && m.Name() !in Names(inFirst) ensures m in all {
      if first.Find(Some(m.Name())).value.Some? {
        FoundIsMember(first, m.Name());
        assert false;
      }
      FoundIsMember(f, m.Name());
    }
    forall m | m in all ensures m in inFirst || (m in inSecond && m.Name() !in Names(inFirst)) {
      var n := m.Name();
      if first.Find(Some(n)).value.Some? {
        FoundIsMember(first, n);
      } else {
        FoundIsMember(second, n);
      }
    }
    assert Names(all) == Names(inFirst) + Names(inSecond) by {
      forall n | n in Names(inFirst) + Names(inSecond) ensures n in Names(all) {
        FoundIsMember(f, n);
      }
    }
  }

  /** `concat(x, empty())` behaves exactly as `x`, for `find` and `findAll`. */
  lemma ConcatEmptyIsIdentity(x: Finder)
    requires x.Valid()
    ensures forall name :: Concat(x, Empty).Find(name) == x.Find(name)
    ensures Concat(x, Empty).FindAll() == x.FindAll()
  {
    var f := Concat(x, Empty);
    if x.FindAll().Success? {
      ConcatFindAll(x, Empty);
      assert f.FindAll().value == x.FindAll().value;
    }
  }

  /** `concat(empty(), x)` behaves exactly as `x`, for `find` and `findAll`. */
  lemma EmptyConcatIsIdentity(x: Finder)
    requires x.Valid()
    ensures forall name :: Concat(Empty, x).Find(name) == x.Find(name)
    ensures Concat(Empty, x).FindAll() == x.FindAll()
  {
    if x.FindAll().Success? {
      ConcatFindAll(Empty, x);
      assert Concat(Empty, x).FindAll().value == x.FindAll().value;
    }
  }

  /** `empty()` finds nothing for a non-null name, rejects null, and its `findAll` is empty. */
  lemma EmptyFindsNothing(name: Option<string>)
    ensures name.Some? ==> Empty.Find(name) == Success(None)
    ensures name.None? ==> Empty.Find(name) == Failure(NullPointerException)
    ensures Empty.FindAll() == Success({})
  {
  }

  /**
   * The unwrap `Optional::get` in `concat(...).findAll()` fails exactly when
   * a name of either inner set is located by neither inner `find`, provided
   * no inner scan fails: then the merge ends in NoSuchElementException.
   */
  lemma {:induction false} UnwrapFailsWhenNameUnlocated(first: Finder, second: Finder, n: string)
    requires first.Sound() && second.Sound()
    requires first.FindAll().Success? && second.FindAll().Success?
    requires n in Names(first.FindAll().value + second.FindAll().value)
    requires first.Find(Some(n)) == Success(None) && second.Find(Some(n)) == Success(None)
    ensures Concat(first, second).FindAll() == Failure(NoSuchElementException)
  {
  }

  /**
   * A witness that the unwrap relies on the inner finders honouring the
   * contract: there is an inner catalog filing a module under a name other
   * than its own for which the unwrap fails.
   */
  lemma UnwrapFailsForNonConformingFinder()
    ensures
      var stray := ModuleReference(ModuleDescriptor("b", None), None);
      var f := Concat(Catalog(map["a" := stray]), Empty);
      && !f.Valid()
      && f.FindAll() == Failure(NoSuchElementException)
  {
    var stray := ModuleReference(ModuleDescriptor("b", None), None);
    var inner := Catalog(map["a" := stray]);
    var f := Concat(inner, Empty);
    assert map["a" := stray].Values == {stray} by {
      assert map["a" := stray]["a"] == stray;
    }
    assert Names({stray} + {}) == {"b"};
    assert f.Find(Some("b")) == Success(None);
  }
}
