/** The ModuleFinder interface: module references, the behaviour of every kind
    of finder the interface's own code builds, and the consistency contract
    that every finder must honour. */
module ModuleFinder {
  import opened Wrappers

  /** The part of a module descriptor that a finder relies on. */
  datatype ModuleDescriptor = ModuleDescriptor(name: string, version: Option<string>)

  /** A reference pairs a descriptor with an opaque location (a URI, if any). */
  datatype ModuleReference = ModuleReference(descriptor: ModuleDescriptor, location: Option<string>)
  {
    function Name(): string { descriptor.name }
  }

  /** The exceptions a finder operation can throw. */
  datatype Error =
    | NullPointerException    // Objects.requireNonNull on a null argument
    | FindException           // an error while scanning modules (its cause is not modelled)
    | NoSuchElementException  // Optional.get on an empty Optional
    | InternalError(message: string)

  type FindResult = Result<Option<ModuleReference>, Error>
  type FindAllResult = Result<set<ModuleReference>, Error>

  /** The set of names of a set of references. */
  function Names(refs: set<ModuleReference>): set<string>
  {
    set r | r in refs :: r.Name()
  }

  /**
   * The finders. `Catalog` stands for a finder whose scanning code lies
   * outside this model (the finders returned by `of` and `ofInstalled`): it
   * is described by the name-to-reference map its scan produces. `Faulty`
   * stands for such a finder whose scan fails. `Empty` is the finder returned
   * by `empty()`; `Concat` is the observable behaviour of the finder returned
   * by `concat(first, second)` (its memo cell is modelled by the class
   * ConcatFinders.ConcatFinder).
   */
  datatype Finder =
    | Catalog(modules: map<string, ModuleReference>)
    | Faulty
    | Empty
    | Concat(first: Finder, second: Finder)
  {
    /** Every catalog inside this finder maps each name to a reference of that name. */
    ghost predicate Valid()
    {
      match this
      case Catalog(modules) => forall n | n in modules :: modules[n].Name() == n
      case Faulty => true
      case Empty => true
      case Concat(first, second) => first.Valid() && second.Valid()
    }

    /** True when no finder inside this one has a failing scan. */
    predicate Sound()
    {
      match this
      case Catalog(_) => true
      case Faulty => false
      case Empty => true
      case Concat(first, second) => first.Sound() && second.Sound()
    }

    /** `find(name)`; a `None` name stands for null. */
    function Find(name: Option<string>): (r: FindResult)
      // every finder rejects a null name
      ensures name.None? ==> r == Failure(NullPointerException)
      // a scan failure surfaces as FindException and only then
      ensures name.Some? && r.Failure? ==> r.error == FindException && !Sound()
      // a located reference carries the requested name
      ensures Valid() && r.Success? && r.value.Some? ==> r.value.value.Name() == name.value
    {
      match this
      case Catalog(modules) =>
        if name.None? then Failure(NullPointerException)
        else if name.value in modules then Success(Some(modules[name.value]))
        else Success(None)
      case Faulty =>
        if name.None? then Failure(NullPointerException) else Failure(FindException)
      case Empty =>
        if name.None? then Failure(NullPointerException) else Success(None)
      case Concat(first, second) =>
        var om := first.Find(name);
        if om.Success? && om.value.None? then second.Find(name) else om
    }

    /** `findAll()`. */
    function FindAll(): (r: FindAllResult)
      // for a well-formed finder the result is a set exactly when no scan fails,
      // and a failure is a FindException (never the unwrap's NoSuchElementException)
      ensures Valid() ==> (r.Success? <==> Sound())
      ensures Valid() && r.Failure? ==> r.error == FindException
      // each element of the set is what `find` locates under its name
      ensures Valid() && r.Success? ==>
        forall m | m in r.value :: Find(Some(m.Name())) == Success(Some(m))
    {
      match this
      case Catalog(modules) =>
        var all := modules.Values;
        assert forall m | m in all :: exists n :: n in modules && modules[n] == m;
        Success(all)
      case Faulty => Failure(FindException)
      case Empty => Success({})
      case Concat(first, second) =>
        match first.FindAll()
        case Failure(e) => Failure(e)
        case Success(inFirst) =>
          match second.FindAll()
          case Failure(e) => Failure(e)
          case Success(inSecond) =>
            // merge both sets, keep each distinct name once, re-resolve it through find and unwrap
            var names := Names(inFirst + inSecond);
            if exists n | n in names :: Find(Some(n)).Failure? then
              Failure(FindException)
            else if exists n | n in names :: Find(Some(n)).value.None? then
              Failure(NoSuchElementException)
            else
              Success(set n | n in names :: Find(Some(n)).value.value)
    }
  }
}
