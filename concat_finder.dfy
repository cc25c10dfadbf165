/** The object returned by `ModuleFinder.concat`: two inner finders and a
    memo cell that caches the result of `findAll`. */
module ConcatFinders {
  import opened Wrappers
  import opened ModuleFinder

  class ConcatFinder {
    const first: Finder
    const second: Finder
    /** The cached result of `findAll`; `None` until a first call succeeds. */
    var allModules: Option<set<ModuleReference>>

    /** The finder this object behaves as. */
    function AsFinder(): Finder
    {
      Concat(first, second)
    }

    /** A filled memo cell holds what the merge of the inner finders yields. */
    ghost predicate Valid()
      reads this
    {
      allModules.Some? ==> AsFinder().FindAll() == Success(allModules.value)
    }

    constructor (first: Finder, second: Finder)
      ensures Valid()
      ensures this.first == first && this.second == second
      ensures allModules == None
    {
      this.first := first;
      this.second := second;
      allModules := None;
    }

    /** `find(name)`: ask `first`, and `second` only when `first` finds nothing. */
    method Find(name: Option<string>) returns (r: FindResult)
      ensures first.Find(name).Success? && first.Find(name).value.Some? ==> r == first.Find(name)
      ensures first.Find(name) == Success(None) ==> r == second.Find(name)
      ensures first.Find(name).Failure? ==> r == first.Find(name)
      ensures r == AsFinder().Find(name)
    {
      r := first.Find(name);
      if r.Success? && r.value.None? {
        r := second.Find(name);
      }
    }

    /** `findAll()`: merge the inner finders' sets on the first call, then serve the memo. */
    method FindAll() returns (r: FindAllResult)
      requires Valid()
      modifies this`allModules
      ensures Valid()
      ensures r == AsFinder().FindAll()
      // once filled, the memo is served as is
      ensures old(allModules).Some? ==>
        && r == Success(old(allModules).value)
        && allModules == old(allModules)
      // otherwise the merge is computed and a success is memoized
      ensures old(allModules).None? ==>
        allModules == (if r.Success? then Some(r.value) else None)
    {
      if allModules.None? {
        var merged := AsFinder().FindAll();
        if merged.Failure? {
          return merged;
        }
        allModules := Some(merged.value);
      }
      r := Success(allModules.value);
    }
  }

  /** `concat(first, second)`, where a `None` argument stands for null. */
  method NewConcat(first: Option<Finder>, second: Option<Finder>) returns (r: Result<ConcatFinder, Error>)
    ensures r.Failure? <==> first.None? || second.None?
    ensures r.Failure? ==> r.error == NullPointerException
    ensures r.Success? ==>
      && fresh(r.value) && r.value.Valid()
      && r.value.first == first.value && r.value.second == second.value
      && r.value.allModules == None
  {
    if first.None? || second.None? {
      return Failure(NullPointerException);
    }
    var c := new ConcatFinder(first.value, second.value);
    r := Success(c);
  }
}
