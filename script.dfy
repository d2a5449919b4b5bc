/** A script unit's data (include/cpplua.h:36-79): its file name, its source
    buffer and its load flag. The Lua state it owns is not part of this model. */
module LuaScript {
  import opened LuaFiles

  class Script {
    var filename: string
    var buffer: seq<byte>
    var loaded: bool

    /** `Script::make()`: a new script with an empty name, an empty buffer and
        the load flag false. */
    constructor Make()
      ensures Filename() == [] && Buffer() == [] && !loaded
    {
      filename := [];
      buffer := [];
      loaded := false;
    }

    /** `filename()`: the stored name. */
    function Filename(): string
      reads this
    {
      filename
    }

    /** `buffer()`: the stored source bytes. */
    function Buffer(): seq<byte>
      reads this
    {
      buffer
    }

    /** `set_filename(f)`: afterwards `filename()` returns `f`; the buffer and
        the load flag are as before. */
    method SetFilename(f: string)
      modifies this
      ensures Filename() == f
      ensures Buffer() == old(Buffer()) && loaded == old(loaded)
    {
      filename := f;
    }

    /** `set_buffer(b)`: afterwards `buffer()` returns `b`; the name and the
        load flag are as before. */
    method SetBuffer(b: seq<byte>)
      modifies this
      ensures Buffer() == b
      ensures Filename() == old(Filename()) && loaded == old(loaded)
    {
      buffer := b;
    }
  }
}
