/** The file system as the provider sees it: file contents by path, and
    each directory's entry names in the order the directory is read. A path
    is a sequence of components, so joining is concatenation and no
    component holds a separator. */
module FileSystems {
  import opened Numbers

  type Path = seq<string>

  datatype FileSystem = FileSystem(files: map<Path, Bytes>, dirs: map<Path, seq<string>>)
  {
    /** `Path::exists`: a file or a directory. */
    predicate Exists(p: Path) { p in files || p in dirs }

    /** `Path::is_file`. */
    predicate IsFile(p: Path) { p in files }

    /** `metadata().len()`. No file holds 2^64 bytes; the bound only gives
        the length its `u64` type. */
    function FileLen(p: Path): (n: u64)
      requires IsFile(p)
      ensures |files[p]| < TWO_64 ==> n == |files[p]|
    {
      if |files[p]| < TWO_64 then |files[p]| else TWO_64 - 1
    }
  }
}
