/** The script registry `Lua::Engine` (include/cpplua.h:81-119,
    src/cpplua.cpp:7-75): an ordered sequence of shared script handles, a loader
    that validates and reads a file before appending one script, and lookups by
    absolute path. Lock acquisition has no effect in this sequential model. */
module LuaEngine {
  import opened LuaResult
  import opened LuaFiles
  import opened LuaScript
  import opened LuaDefer

  // ---------------------------------------------------------------------------
  // The checks of load_script and their error texts

  /** The four ways `load_script` can fail, in the order it checks them. */
  datatype LoadError = FileDoesNotExist | NotAFile | CouldNotOpen | ShortRead

  /** The error text returned for each failure (src/cpplua.cpp:13, 15, 27, 33). */
  function Message(e: LoadError): (text: string)
    ensures text != ""
  {
    match e
    case FileDoesNotExist => "file does not exist"
    case NotAFile => "given path is not a file"
    case CouldNotOpen => "could not open file"
    case ShortRead => "error reading file"
  }

  /** The first check of `load_script` that fails for `filename`, or `None` when
      all pass. Existence and file type are asked of the path as given; size,
      opening and reading use its absolute form. A read is short when the file
      delivers fewer bytes than its reported size. */
  function FirstFailingCheck(fs: FileSystem, filename: Path): Option<LoadError> {
    var fullpath := fs.absolute(filename);
    if !fs.pathExists(filename) then Some(FileDoesNotExist)
    else if !fs.isRegularFile(filename) then Some(NotAFile)
    else if !fs.opens(fullpath) then Some(CouldNotOpen)
    else if |fs.contents(fullpath)| < fs.fileSize(fullpath) then Some(ShortRead)
    else None
  }

  /** The error text `load_script` returns: empty on success, the message of the
      first failing check otherwise. */
  function LoadErrorText(fs: FileSystem, filename: Path): string {
    match FirstFailingCheck(fs, filename)
    case None => ""
    case Some(e) => Message(e)
  }

  /** The error text names the check that failed: the four texts are distinct,
      and each appears exactly when every earlier check passed and that one
      failed. The empty text appears exactly when all four passed. */
  lemma LoadErrorOrder(fs: FileSystem, filename: Path)
    ensures var fullpath := fs.absolute(filename);
      && (LoadErrorText(fs, filename) == "file does not exist" <==> !fs.pathExists(filename))
      && (LoadErrorText(fs, filename) == "given path is not a file"
          <==> fs.pathExists(filename) && !fs.isRegularFile(filename))
      && (LoadErrorText(fs, filename) == "could not open file"
          <==> fs.pathExists(filename) && fs.isRegularFile(filename) && !fs.opens(fullpath))
      && (LoadErrorText(fs, filename) == "error reading file"
          <==> fs.pathExists(filename) && fs.isRegularFile(filename) && fs.opens(fullpath)
               && |fs.contents(fullpath)| < fs.fileSize(fullpath))
      && (LoadErrorText(fs, filename) == ""
          <==> fs.pathExists(filename) && fs.isRegularFile(filename) && fs.opens(fullpath)
               && fs.fileSize(fullpath) <= |fs.contents(fullpath)|)
  {
    MessagesDistinct();
  }

  lemma MessagesDistinct()
    ensures forall e1, e2 :: Message(e1) == Message(e2) ==> e1 == e2
  {
    var a, b, c, d := Message(FileDoesNotExist), Message(NotAFile), Message(CouldNotOpen), Message(ShortRead);
    assert a[0] == 'f' && b[0] == 'g' && c[0] == 'c' && d[0] == 'e';
  }

  // ---------------------------------------------------------------------------
  // Linear search by name, as std::find_if does it

  /** The filenames of a sequence of scripts, in the same order. */
  function FilenamesOf(ss: seq<Script>): (names: seq<string>)
    reads ss
    ensures |names| == |ss|
    ensures forall i :: 0 <= i < |ss| ==> names[i] == ss[i].filename
  {
    if ss == [] then [] else FilenamesOf(ss[..|ss| - 1]) + [ss[|ss| - 1].filename]
  }

  /** Appending a script appends its name. */
  lemma FilenamesOfAppend(ss: seq<Script>, s: Script)
    ensures FilenamesOf(ss + [s]) == FilenamesOf(ss) + [s.filename]
  {
    assert (ss + [s])[..|ss|] == ss;
  }

  /** `std::find_if` with the predicate "name equals target": the position of the
      first equal name, or `|names|` (the end iterator) when there is none. */
  function FindIf(names: seq<string>, target: string): (i: nat)
    ensures i <= |names|
    ensures i < |names| ==> names[i] == target
    ensures forall j :: 0 <= j < i ==> names[j] != target
    ensures i == |names| <==> target !in names
  {
    if names == [] then 0
    else if names[0] == target then 0
    else 1 + FindIf(names[1..], target)
  }

  /** Appending a name changes a search only when the target was absent before:
      an earlier match still wins, and otherwise the new last position is found
      exactly when the new name is the target. */
  lemma {:induction false} FindIfAppend(names: seq<string>, x: string, target: string)
    ensures FindIf(names + [x], target) ==
      if target in names then FindIf(names, target)
      else if x == target then |names|
      else |names| + 1
  {
    if names != [] {
      assert (names + [x])[1..] == names[1..] + [x];
      if names[0] != target {
        FindIfAppend(names[1..], x, target);
        assert target in names <==> target in names[1..];
      }
    }
  }

  /** A second entry with the same name is never reached by a lookup: when a path
      is loaded twice the registry holds two entries with that name, and a search
      stops at the first. */
  lemma DuplicateIsShadowed(names: seq<string>, name: string)
    ensures FindIf(names + [name] + [name], name) <= |names|
  {
    FindIfAppend(names, name, name);
    FindIfAppend(names + [name], name, name);
  }

  // ---------------------------------------------------------------------------
  // The engine

  class Engine {
    /** `m_scripts`: the registered scripts, in load order. */
    var scripts: seq<Script>

    /** `Engine()`: an empty registry. */
    constructor ()
      ensures scripts == []
    {
      scripts := [];
    }

    /** `unsafe_get_script_by_name(filename)`: the first registered script whose
        name equals the absolute form of `filename`, or null when none does. */
    function UnsafeGetScriptByName(fs: FileSystem, filename: Path): (r: Script?)
      reads this, scripts
      ensures r == null <==> forall i :: 0 <= i < |scripts| ==> scripts[i].filename != fs.absolute(filename)
      ensures r != null ==>
        (exists i :: 0 <= i < |scripts| && scripts[i] == r && r.filename == fs.absolute(filename)
           && (forall j :: 0 <= j < i ==> scripts[j].filename != fs.absolute(filename)))
    {
      var fullpath := fs.absolute(filename);
      var i := FindIf(FilenamesOf(scripts), fullpath);
      if i == |scripts| then null else scripts[i]
    }

    /** `get_script_by_name(filename)`: the same search, under the registry's
        shared lock; it changes nothing. */
    method GetScriptByName(fs: FileSystem, filename: Path) returns (r: Script?)
      ensures r == UnsafeGetScriptByName(fs, filename)
      ensures r == null <==> fs.absolute(filename) !in FilenamesOf(scripts)
    {
      r := UnsafeGetScriptByName(fs, filename);
    }

    /** `is_loaded(filename)`: true exactly when `get_script_by_name` finds a
        script, that is, when some registered script carries the absolute name. */
    method IsLoaded(fs: FileSystem, filename: Path) returns (b: bool)
      ensures b <==> UnsafeGetScriptByName(fs, filename) != null
      ensures b <==> fs.absolute(filename) in FilenamesOf(scripts)
    {
      var script := GetScriptByName(fs, filename);
      if script != null {
        b := true;
      } else {
        b := false;
      }
    }

    /** `unload_script(filename)` as written: it takes the exclusive lock and
        looks the script up, and erases nothing, so the registry is unchanged. */
    method UnloadScript(fs: FileSystem, filename: Path)
      ensures scripts == old(scripts)
      ensures FilenamesOf(scripts) == old(FilenamesOf(scripts))
    {
      var iter := UnsafeGetScriptByName(fs, filename);
    }

    /** `unload_script(script)`: the same as unloading by `script->filename()`. */
    method UnloadScriptByPointer(fs: FileSystem, script: Script)
      ensures scripts == old(scripts)
      ensures FilenamesOf(scripts) == old(FilenamesOf(scripts))
    {
      UnloadScript(fs, script.Filename());
    }

    /** `load_script(filename)`. The checks run in a fixed order and the first
        that fails decides the error text; on an error the registry is unchanged
        and the value is null. On success exactly one fresh script is appended:
        its name is the absolute path, its buffer is the file's first
        `file_size` bytes, and it is not marked loaded (`Script::load` is never
        called). There is no check for a script already registered under the
        same name. `handle` is the file opened, if the open was reached and
        succeeded; it has been read once and then closed exactly once. */
    method LoadScript(fs: FileSystem, filename: Path) returns (r: Result<Script?>, ghost handle: FileHandle?)
      modifies this
      ensures r.error == LoadErrorText(fs, filename)
      ensures r.Ok() <==> FirstFailingCheck(fs, filename) == None
      ensures r.Failed() ==> r.value == null && scripts == old(scripts)
      ensures r.Ok() ==> var fullpath := fs.absolute(filename);
        && r.value != null && fresh(r.value)
        && scripts == old(scripts) + [r.value]
        && r.value.filename == fullpath
        && r.value.buffer == fs.contents(fullpath)[..fs.fileSize(fullpath)]
        && !r.value.loaded
      ensures forall s :: s in old(scripts) ==>
        s.filename == old(s.filename) && s.buffer == old(s.buffer) && s.loaded == old(s.loaded)
      ensures r.Ok() ==> UnsafeGetScriptByName(fs, filename) != null
      ensures (handle != null) <==>
        fs.pathExists(filename) && fs.isRegularFile(filename) && fs.opens(fs.absolute(filename))
      ensures handle != null ==> fresh(handle) && handle.path == fs.absolute(filename) && handle.closeCount == 1 && handle.readCount == 1
    {
      handle := null;
      if !fs.pathExists(filename) {
        return Result("file does not exist", null), null;
      } else if !fs.isRegularFile(filename) {
        return Result("given path is not a file", null), null;
      }
      var fullpath := fs.absolute(filename);
      var script := new Script.Make();
      script.SetFilename(fullpath);
      var buffer := new byte[fs.fileSize(fullpath)];
      var file := Open(fs, fullpath);
      if file == null {
        return Result("could not open file", null), null;
      }
      handle := file;
      var deferCloseFile := new Defer(file);
      var n := Read(fs, file, buffer);
      assert file.readCount == 1 && file.closeCount == 0 && !deferCloseFile.fired;
      if n != buffer.Length {
        r := Result("error reading file", null);
        deferCloseFile.Fire();
        return;
      }
      script.SetBuffer(buffer[..]);
      assert script.buffer == fs.contents(fullpath)[..fs.fileSize(fullpath)];
      ghost var before := scripts;
      scripts := scripts + [script];
      r := Result("", script);
      deferCloseFile.Fire();
      LookupAfterLoad(this, fs, filename, before, script);
    }
  }

  /** What a lookup finds once a load has appended script `s` named by the
      absolute path of `filename`: `is_loaded(filename)` now holds; if an earlier
      script already had that name, the lookup still returns an earlier one (so
      the new entry is shadowed); otherwise it returns `s`. */
  lemma LookupAfterLoad(e: Engine, fs: FileSystem, filename: Path, before: seq<Script>, s: Script)
    requires e.scripts == before + [s]
    requires s.filename == fs.absolute(filename)
    ensures e.UnsafeGetScriptByName(fs, filename) != null
    ensures fs.absolute(filename) in FilenamesOf(before) ==> e.UnsafeGetScriptByName(fs, filename) in before
    ensures fs.absolute(filename) !in FilenamesOf(before) ==> e.UnsafeGetScriptByName(fs, filename) == s
  {
    FilenamesOfAppend(before, s);
    FindIfAppend(FilenamesOf(before), s.filename, fs.absolute(filename));
  }
}
