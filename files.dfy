/** The file system as `load_script` uses it (src/cpplua.cpp:12-34): existence
    and type queries, absolute paths, file sizes, opening, reading and closing.
    All queries are deterministic functions of the path. */
module LuaFiles {

  /** One byte of a file opened in binary mode. */
  newtype byte = x: int | 0 <= x < 256

  type Path = string

  /** The answers the file system gives, as pure functions of the path:
      - `pathExists(p)`: `std::filesystem::exists(p)`;
      - `isRegularFile(p)`: `std::filesystem::is_regular_file(p)`;
      - `absolute(p)`: `std::filesystem::absolute(p)`;
      - `fileSize(p)`: `std::filesystem::file_size(p)`;
      - `opens(p)`: whether `fopen(p, "rb")` returns a handle;
      - `contents(p)`: the bytes that reading from a fresh handle on `p` delivers,
        in order, until end of file. */
  datatype FileSystem = FileSystem(
    pathExists: Path -> bool,
    isRegularFile: Path -> bool,
    absolute: Path -> Path,
    fileSize: Path -> nat,
    opens: Path -> bool,
    contents: Path -> seq<byte>)

  /** A `FILE*` returned by `fopen`. `closeCount` counts the `fclose` calls made
      on it and `readCount` the `fread` calls, so that "the handle that was read
      is closed exactly once" can be stated. */
  class FileHandle {
    const path: Path
    var closeCount: nat
    ghost var readCount: nat

    constructor (path: Path)
      ensures this.path == path && closeCount == 0 && readCount == 0
    {
      this.path := path;
      closeCount := 0;
      readCount := 0;
    }

    /** `fclose(file)`. */
    method Close()
      modifies this
      ensures closeCount == old(closeCount) + 1
      ensures readCount == old(readCount)
    {
      closeCount := closeCount + 1;
    }
  }

  function Min(a: nat, b: nat): nat {
    if a <= b then a else b
  }

  /** `fopen(path, "rb")`: a fresh open handle, or null when the file system
      refuses to open the path. */
  method Open(fs: FileSystem, path: Path) returns (file: FileHandle?)
    ensures file == null <==> !fs.opens(path)
    ensures file != null ==> fresh(file) && file.path == path && file.closeCount == 0 && file.readCount == 0
  {
    if fs.opens(path) {
      file := new FileHandle(path);
    } else {
      file := null;
    }
  }

  /** `fread(buffer.data(), 1, buffer.size(), file)` on a handle that is still
      open and not yet read from, so that the file position is at the start: it copies as many bytes as both the buffer and the file hold, returns
      that count, and leaves the rest of the buffer as it was. */
  method Read(fs: FileSystem, file: FileHandle, buffer: array<byte>) returns (n: nat)
    requires file.closeCount == 0 && file.readCount == 0
    modifies buffer, file
    ensures file.closeCount == 0 && file.readCount == old(file.readCount) + 1
    ensures n == Min(buffer.Length, |fs.contents(file.path)|)
    ensures n == buffer.Length <==> buffer.Length <= |fs.contents(file.path)|
    ensures buffer[..n] == fs.contents(file.path)[..n]
    ensures buffer[n..] == old(buffer[n..])
  {
    var data := fs.contents(file.path);
    n := Min(buffer.Length, |data|);
    forall i | 0 <= i < n {
      buffer[i] := data[i];
    }
    file.readCount := file.readCount + 1;
  }
}
