# ModuleFinder, modelled in Dafny

A model of `java.lang.module.ModuleFinder`, the interface through which the
Java module system locates modules during resolution and service binding. A
finder answers two queries: `find(name)`, an optional reference to the module
of that name, and `findAll()`, the set of every reference it can locate. The
interface promises a consistent view. Repeated queries give the same answers.
A located reference belongs to `findAll`'s set. Every member of that set is
what `find` locates under its name, so a finder holds at most one reference
per module name.

The model covers the code the interface itself implements:

- `Finder` (in `finder.dfy`) gives the behaviour of every kind of finder as
  functions `Find` and `FindAll`. `Catalog` stands for the finders whose
  scanning code is not part of this model (`of` and `ofInstalled`): a map from
  module name to reference. `Faulty` is such a finder whose scan fails with
  `FindException`. `Empty` is `empty()`, and `Concat` is what `concat` answers.
  Thrown exceptions are `Failure` results, an empty `Optional` is `None`, and a
  null name argument is `None`.
- `ConcatFinder` (in `concat_finder.dfy`) is the object `concat` returns. It
  has the two inner finders and the memo field `allModules`, which `findAll`
  fills once and then serves.
- `FinderContract` (in `contract.dfy`) states the interface contract and
  proves it for every well-formed finder, concatenations included. It also
  proves what `concat(first, second).findAll()` holds, with `first` winning on
  a shared name, and that the `Optional::get` in its pipeline never fails when
  the inner finders keep the contract.
- `InstalledImage` (in `installed.dfy`) is the run-time image layout decision
  in `ofInstalled`, over an abstract file system.

Because `Find` and `FindAll` are functions, repeated calls with the same
argument give equal results by construction. The one piece of mutable state,
the memo cell, is handled by `ConcatFinder.FindAll`.

## Model

| member | source | states |
|---|---|---|
| `ModuleFinder.Finder.Find` | src/java.base/share/classes/java/lang/module/ModuleFinder.java:86-108 | every finder rejects a null name; for a non-null name, a failure is a `FindException` and can only come from a failing scan; a reference located in a well-formed finder carries the requested name |
| `ModuleFinder.Finder.FindAll` | src/java.base/share/classes/java/lang/module/ModuleFinder.java:110-132 | for a well-formed finder, every member of the returned set is what `find` locates under its name; the result is a set exactly when no inner scan fails, and a failure is always `FindException`, so the `Optional::get` in `concat`'s pipeline never throws |
| `FinderContract.FoundIsMember` | src/java.base/share/classes/java/lang/module/ModuleFinder.java:89-94 | a module that `find` locates is a member of the set `findAll` returns |
| `FinderContract.ContractHolds` | src/java.base/share/classes/java/lang/module/ModuleFinder.java:113-118 | every well-formed finder, concatenations included, honours the whole contract: located references carry their names and belong to `findAll`; `findAll` members are found under their names; at most one reference per name |
| `FinderContract.ConcatFindAll` | src/java.base/share/classes/java/lang/module/ModuleFinder.java:301-304 | `concat(first, second).findAll()` succeeds when both inner sets do; its names are the union of theirs; it holds all of `first`'s references, and exactly those of `second`'s whose names `first` lacks |
| `FinderContract.ConcatEmptyIsIdentity` | src/java.base/share/classes/java/lang/module/ModuleFinder.java:295-300 | `concat(x, empty())` answers `find` and `findAll` exactly as `x` |
| `FinderContract.EmptyConcatIsIdentity` | src/java.base/share/classes/java/lang/module/ModuleFinder.java:295-300 | `concat(empty(), x)` answers `find` and `findAll` exactly as `x` |
| `FinderContract.EmptyFindsNothing` | src/java.base/share/classes/java/lang/module/ModuleFinder.java:352-363 | `empty().find` is empty for every non-null name and throws `NullPointerException` for null; `empty().findAll()` is the empty set |
| `FinderContract.UnwrapFailsWhenNameUnlocated` | src/java.base/share/classes/java/lang/module/ModuleFinder.java:330-336 | when no inner scan fails and some name of either inner set is located by neither inner `find`, `concat`'s `findAll` fails in `Optional::get` with `NoSuchElementException` |
| `FinderContract.UnwrapFailsForNonConformingFinder` | src/java.base/share/classes/java/lang/module/ModuleFinder.java:330-336 | there is an inner catalog filing a module under a name other than its own for which `concat`'s `findAll` fails in `Optional::get`: the unwrap is safe only because of the contract |
| `ConcatFinders.ConcatFinder.Find` | src/java.base/share/classes/java/lang/module/ModuleFinder.java:320-326 | the result is `first`'s when `first` locates the module or fails; `second` is asked only when `first` finds nothing |
| `ConcatFinders.ConcatFinder.FindAll` | src/java.base/share/classes/java/lang/module/ModuleFinder.java:327-339 | the result is the merge of both inner sets re-resolved through `find`; with the memo filled it is returned unchanged; otherwise the merge is computed and a success fills the memo (the inner finders are values, so whether they are consulted again is not observable in the model) |
| `ConcatFinders.ConcatFinder.constructor` | src/java.base/share/classes/java/lang/module/ModuleFinder.java:317-318 | a new concatenation holds its two finders and an empty memo |
| `ConcatFinders.NewConcat` | src/java.base/share/classes/java/lang/module/ModuleFinder.java:313-317 | `concat` throws `NullPointerException` exactly when an argument is null, and otherwise returns a fresh finder over the two with an empty memo |
| `InstalledImage.OfInstalled` | src/java.base/share/classes/java/lang/module/ModuleFinder.java:169-179 | the image finder exactly when `lib/modules` is a regular file; otherwise a module path over `modules` exactly when it is a directory; otherwise an `InternalError` |
| `InstalledImage.OnlyTheTwoPathsMatter` | src/java.base/share/classes/java/lang/module/ModuleFinder.java:169-179 | the choice depends only on those two facts, and not on `modules` once `lib/modules` is a regular file |

## Left out

- The security-manager check, `doPrivileged` and the `java.home` property in `ofInstalled`: the home directory and the file-system facts are parameters.
- `ModulePath` and `InstalledModuleFinder`, the real scanners behind `of` and `ofInstalled`, are not part of this model. They are the `Catalog` and `Faulty` finders, assumed to keep the contract. Like `empty()`, they are assumed to reject a null name with `NullPointerException`.
- Automatic-module naming, versions and JAR scanning exist only as documentation in this file, so they are not modelled.
- The cause carried by `FindException` is not modelled. A `Faulty` finder fails on every query; a scanner that fails on some names only is not modelled.
- Behaviour after a `FindException` is undefined by the interface. The model propagates the failure unchanged, and a failed `ConcatFinder.FindAll` leaves the memo empty.
- Thread safety: the interface does not require it.
- ModuleFinder.Finder.FindAll: when several names of `concat`'s pipeline would throw, Java throws whichever the stream meets first. The model reports `FindException` ahead of `NoSuchElementException`. Neither can happen when the inner finders are well-formed.
- ModuleFinder.Finder.Find: the interface also lets `find` throw `SecurityException` when a security manager denies access. No finder in the model throws it, so the contract that every failure for a non-null name is a `FindException` holds only for finders without that check.
- ModuleFinder.Finder.FindAll: likewise, `findAll` may throw `SecurityException`. The model never does, so the contract that every failure of a well-formed finder is a `FindException` holds only for finders without that check.
- ConcatFinders.ConcatFinder.FindAll: Java returns the memo set itself, built by `Collectors.toSet()` and not wrapped as unmodifiable. A caller that mutates it changes what later calls return, which breaks the promise of equal results. The model returns an immutable value, so it does not capture that aliasing or any mutation by callers.
- ConcatFinders.ConcatFinder.FindAll: inner finders are values, so an inner `concat`'s own memo is not modelled. Only its answers are.
