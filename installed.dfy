/** The choice of finder made by `ModuleFinder.ofInstalled` from the layout
    of the run-time image under the `java.home` directory. */
module InstalledImage {
  import opened Wrappers
  import opened ModuleFinder

  /** A path as its sequence of name elements. */
  type Path = seq<string>

  /** The two file-system facts the choice depends on, as the sets of paths
      that are regular files and that are directories. */
  datatype FileSystem = FileSystem(regularFiles: set<Path>, directories: set<Path>)

  /** The finder `ofInstalled` returns: the one over the packed image file,
      or a module-path finder over a directory of exploded modules. */
  datatype InstalledFinder = InstalledModuleFinder | ModulePath(entries: seq<Path>)

  function ImageFile(home: string): Path { [home, "lib", "modules"] }

  function ModulesDirectory(home: string): Path { [home, "modules"] }

  const UndetectedImage := "Unable to detect the run-time image"

  function OfInstalled(home: string, fs: FileSystem): (r: Result<InstalledFinder, Error>)
    // the packed image wins whenever lib/modules is a regular file
    ensures r == Success(InstalledModuleFinder) <==> ImageFile(home) in fs.regularFiles
    // otherwise a module path over the modules directory, when it is one
    ensures r.Success? && r.value.ModulePath? <==>
      ImageFile(home) !in fs.regularFiles && ModulesDirectory(home) in fs.directories
    ensures r.Success? && r.value.ModulePath? ==> r.value.entries == [ModulesDirectory(home)]
    // neither layout is a broken installation
    ensures r.Failure? <==>
      ImageFile(home) !in fs.regularFiles && ModulesDirectory(home) !in fs.directories
    ensures r.Failure? ==> r.error == InternalError(UndetectedImage)
  {
    if ImageFile(home) in fs.regularFiles then
      Success(InstalledModuleFinder)
    else if ModulesDirectory(home) in fs.directories then
      Success(ModulePath([ModulesDirectory(home)]))
    else
      Failure(InternalError(UndetectedImage))
  }

  /** Whether `modules` is a directory has no bearing once lib/modules is a
      regular file; and only those two paths matter to the choice. */
  lemma OnlyTheTwoPathsMatter(home: string, fs: FileSystem, fs': FileSystem)
    requires ImageFile(home) in fs.regularFiles <==> ImageFile(home) in fs'.regularFiles
    requires ImageFile(home) !in fs.regularFiles ==>
      (ModulesDirectory(home) in fs.directories <==> ModulesDirectory(home) in fs'.directories)
    ensures OfInstalled(home, fs) == OfInstalled(home, fs')
  {
  }
}
