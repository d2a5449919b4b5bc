/** `Defer` (include/cpplua.h:121-136): an object that runs a callback when it
    goes out of scope. The core uses it once, to close the file `load_script`
    opened (src/cpplua.cpp:29-30), so the callback here is that `fclose`. */
module LuaDefer {
  import opened LuaFiles

  class Defer {
    /** The handle the callback captured by reference. */
    const file: FileHandle
    /** Whether the destructor has run. */
    var fired: bool

    /** Constructing a `Defer` stores the callback and runs nothing. */
    constructor (file: FileHandle)
      ensures this.file == file && !fired
      ensures file.closeCount == old(file.closeCount)
    {
      this.file := file;
      fired := false;
    }

    /** The destructor, at the end of the enclosing scope: it runs the callback.
        The type can be neither copied nor moved, so the one object is destroyed
        once; `requires !fired` makes a second run a verification error. */
    method Fire()
      requires !fired
      modifies this, file
      ensures fired
      ensures file.closeCount == old(file.closeCount) + 1
      ensures file.readCount == old(file.readCount)
    {
      fired := true;
      file.Close();
    }
  }
}
