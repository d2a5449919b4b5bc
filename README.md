# cpplua script registry, modelled in Dafny

cpplua is a C++ bridge that loads Lua scripts, one Lua state per script, and
keeps them in a registry, `Lua::Engine`. This project models the registry and
the small types around it:

- the status convention `Result<T>` / `Result<void>`, where an empty error text
  means success (module `LuaResult`);
- the bit flag `CallFlags` (module `LuaFlags`);
- the file system that `load_script` asks: existence, file type, absolute path,
  size, `fopen`, `fread` and `fclose` (module `LuaFiles`). It is a value of
  pure query functions passed in as a parameter, plus a `FileHandle` class that
  counts `fread` and `fclose` calls;
- `Defer`, the scope guard that closes the file (module `LuaDefer`);
- a `Script` with its three data fields `filename`, `buffer` and `loaded`
  (module `LuaScript`);
- the `Engine` with its ordered sequence `scripts` (`m_scripts`), the loader
  `load_script`, the lookups `unsafe_get_script_by_name`,
  `get_script_by_name` and `is_loaded`, and both `unload_script` overloads
  (module `LuaEngine`).

`load_script` is an imperative method. It allocates a script, allocates a
buffer array of the file's size, opens the file, reads into the buffer,
appends to `scripts`, and closes the file through `Defer` on the way out. Its
postcondition states six things:

- the error text is the one of the first failing check, in the source's order;
- on an error, the value is null and `scripts` is unchanged;
- on success, exactly one fresh script is appended, with the absolute path as
  its name, the file's first `file_size` bytes as its buffer, and `loaded`
  false;
- the scripts registered before keep their fields;
- on success, a lookup of the same path finds a script;
- once the file is opened, that handle is read once and closed exactly once,
  on both later return paths.

The lookups are functions and methods that change nothing. They are built on
`FindIf`, a model of `std::find_if`, and lemmas relate them to appending.

## Behaviour as written, where it departs from the header comments

The model follows the code. In these places the code does less than the
comments in include/cpplua.h say:

- The comment on `load_script` says it loads the script "and initializes it"
  (include/cpplua.h:88). The code never calls `Script::load()`, so every
  registered script has `loaded == false` (src/cpplua.cpp:35-38).
- The comment on `unload_script` says it "Removes the script from the engine"
  (include/cpplua.h:92). `unload_script(filename)` takes the lock and looks the
  script up, but erases nothing, so `scripts` is unchanged
  (src/cpplua.cpp:54-57).
- `load_script` does not check for a script already registered under the same
  absolute path (src/cpplua.cpp:36-37). Two entries can carry the same name,
  and the lookup returns the first (`DuplicateIsShadowed`, `LookupAfterLoad`).
- The success return `{ nullptr, script }` builds a `std::string` from a null
  pointer, which is undefined behaviour in C++ (src/cpplua.cpp:38). The model
  reads it as an empty error text, that is, success.

## Model

| member | source | states |
|---|---|---|
| `LuaResult.Result.Failed` | include/cpplua.h:19 | `failed()`: true exactly when the error text is not empty |
| `LuaResult.Result.Ok` | include/cpplua.h:16-22 | `ok()` is always the negation of `failed()` (non-empty error text) |
| `LuaResult.VoidResult.Ok` | include/cpplua.h:24-29 | the same for `Result<void>`: `ok()` holds exactly when `failed()` does not |
| `LuaResult.VoidResult.Failed` | include/cpplua.h:27 | `failed()` of `Result<void>`: true exactly when the error text is not empty |
| `LuaResult.DefaultVoid` | include/cpplua.h:28 | a default-constructed `Result<void>` is ok and not failed |
| `LuaResult.OkIffEmptyError` | include/cpplua.h:18-19 | `ok()` holds iff the error is the empty string, and `failed()` iff it is not |
| `LuaFlags.IgnoresMissing` | include/cpplua.h:31-34 | "ignore missing" is set exactly when bit 0 of the flag word is set (the word is odd) |
| `LuaFlags.FlagValues` | include/cpplua.h:32-33 | `None` is 0 and ignores nothing; `IgnoreNotExists` is 1 and sets the option |
| `LuaFlags.IgnoresMissingOnlyBitZero` | include/cpplua.h:33 | for the bit test: or-ing in bit 0 sets the option and masking it out clears it |
| `LuaFiles.FileHandle.Close` | src/cpplua.cpp:30 | `fclose` adds one to the handle's count of closes and leaves its count of reads as it was |
| `LuaFiles.Open` | src/cpplua.cpp:25-28 | `fopen` yields null exactly when the path cannot be opened, else a fresh handle not yet read or closed |
| `LuaFiles.Read` | src/cpplua.cpp:31-32 | `fread` on an open handle reads min(buffer size, file bytes) bytes, equal to the file's first bytes, and leaves the rest of the buffer as it was; it requires a handle that is open and not yet read from, and counts one read; the count equals the buffer size iff the file holds at least that many bytes |
| `LuaDefer.Defer.constructor` | include/cpplua.h:128-129 | constructing the guard stores the callback and runs nothing |
| `LuaDefer.Defer.Fire` | include/cpplua.h:130-134 | the destructor runs the callback (closes the file once) and may run only once |
| `LuaScript.Script.Make` | include/cpplua.h:45 | a new script has an empty name, an empty buffer and `loaded == false` |
| `LuaScript.Script.Filename` | include/cpplua.h:52-54 | returns the stored name; reads only the script and changes nothing |
| `LuaScript.Script.Buffer` | include/cpplua.h:56 | returns the stored bytes; reads only the script and changes nothing |
| `LuaScript.Script.SetFilename` | include/cpplua.h:47-54 | afterwards `filename()` returns the new name; buffer and load flag unchanged |
| `LuaScript.Script.SetBuffer` | include/cpplua.h:49-57 | afterwards `buffer()` returns the new bytes; name and load flag unchanged |
| `LuaEngine.FirstFailingCheck` | src/cpplua.cpp:12-33 | the first failing check, in source order: existence and file type asked of the path as given, size, open and read of its absolute form; a read is short when the file holds fewer bytes than its size |
| `LuaEngine.LoadErrorText` | src/cpplua.cpp:13-38 | empty on success (the `{ nullptr, script }` return), else the message of the first failing check |
| `LuaEngine.Message` | src/cpplua.cpp:12-33 | every error text of `load_script` is non-empty |
| `LuaEngine.MessagesDistinct` | src/cpplua.cpp:12-33 | the four error texts are pairwise distinct |
| `LuaEngine.LoadErrorOrder` | src/cpplua.cpp:12-34 | each error text appears exactly when all earlier checks pass and its own fails; the empty text exactly when all four pass |
| `LuaEngine.FilenamesOf` | src/cpplua.cpp:66-69 | the names of a script sequence, position by position |
| `LuaEngine.FilenamesOfAppend` | src/cpplua.cpp:37 | appending a script appends its name |
| `LuaEngine.FindIf` | src/cpplua.cpp:66-69 | `find_if` returns the first position holding the target, or the end position exactly when the target is absent |
| `LuaEngine.FindIfAppend` | src/cpplua.cpp:64-75 | after appending a name, an earlier match still wins; otherwise the new position is found iff the new name is the target |
| `LuaEngine.DuplicateIsShadowed` | src/cpplua.cpp:36-37 | when a name is appended twice, a search for it stops at or before the first copy, so the second copy is never returned |
| `LuaEngine.LookupAfterLoad` | src/cpplua.cpp:36-37 | after appending a script named `absolute(f)`, the lookup of `f` succeeds, returns an earlier script when one had that name, and the new script otherwise |
| `LuaEngine.Engine.constructor` | src/cpplua.cpp:7 | a new engine has no scripts |
| `LuaEngine.Engine.UnsafeGetScriptByName` | src/cpplua.cpp:64-75 | null iff no script is named `absolute(f)`; otherwise a registered script of that name with no such name before it |
| `LuaEngine.Engine.GetScriptByName` | src/cpplua.cpp:59-62 | returns what the unlocked lookup returns: null iff `absolute(f)` is not among the names; changes nothing |
| `LuaEngine.Engine.IsLoaded` | src/cpplua.cpp:41-48 | true iff `get_script_by_name` finds a script, iff `absolute(f)` is among the names; changes nothing |
| `LuaEngine.Engine.UnloadScript` | src/cpplua.cpp:54-57 | as written, the registry and its names are unchanged |
| `LuaEngine.Engine.UnloadScriptByPointer` | src/cpplua.cpp:50-52 | behaves as unloading by the script's name: registry unchanged |
| `LuaEngine.Engine.LoadScript` | src/cpplua.cpp:11-39 | error text of the first failing check (missing, not a file, open fails, short read); on error value null and registry unchanged; on success exactly one fresh script appended with the absolute name, the first `file_size` bytes and `loaded == false`, and a lookup of the path then succeeds; earlier scripts keep their fields; an opened file is read once and then closed exactly once, the same handle |

## Left out

- The Lua state and everything that talks to it: the `Script` constructor's
  `luaL_newstate`, `state()`, `Script::load`, `call_function`,
  `has_function_with_name`, `~Script`, `Engine::call_in_all_scripts` and
  `register_global_function`. They are declared in include/cpplua.h (lines 42,
  59, 61, 65, 66, 105 and 108, with the constructor at src/cpplua.cpp:77-79)
  and, apart from the constructor, defined outside src/cpplua.cpp. They all
  need the Lua runtime, which is a foreign library.
- `std::any` arguments and results: an open dynamic type backed by the Lua
  runtime.
- The mutexes and `acquire_shared_lock` / `acquire_unique_lock`: they exist only
  for concurrency, and the model is sequential, so taking a lock has no effect.
- `shared_ptr` reference counting and lifetimes: a script is a heap object, and
  the returned pointer is the appended object itself.
- The `std::filesystem` calls, `fopen`, `fread` and `fclose` are replaced by the
  `FileSystem` query functions and the `FileHandle` counter. Exceptions that
  `std::filesystem` may throw (for example `file_size` on a file that vanished)
  are not modelled: each query is a total function.
- A file that changes between the checks and the read is also not modelled,
  because every query is a fixed function of the path.
- `UnsafeGetScriptByName` compares names as strings. The source compares a
  `std::filesystem::path` with a string, which compares path elements and can
  treat spellings such as a doubled separator as equal. The model takes
  `absolute` to return the spelling that is stored and compared.
- `Defer` is modelled for its one use in the core, a callback that closes the
  file. The template over any callable is not modelled.
- `LuaScript.Script.SetFilename` and `LuaScript.Script.SetBuffer` model
  `set_filename` and `set_buffer`, which are declared at include/cpplua.h:48
  and :50 and not defined in src/cpplua.cpp. They are modelled as the field
  assignments that their comments and getters imply.
- The non-const overload `std::vector<char>& buffer()` (include/cpplua.h:57)
  is not modelled. It returns a mutable reference that lets callers change a
  script's buffer in place. `LuaScript.Script.Buffer` models only the const
  getter, which returns the bytes as a value. Nothing in src/cpplua.cpp calls
  either overload.
- src/main.cpp is a command-line driver and is not part of this model.
