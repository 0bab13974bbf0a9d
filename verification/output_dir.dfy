/**
 * The output directory: a map from entry names to entries, and the
 * best-effort clearing that runs before any frame is written.
 */
module OutputDir {
  import opened Wrappers

  /** A directory entry: a regular file with its bytes, or a subdirectory. */
  datatype Entry = File(content: seq<int>) | Dir

  function Get(dir: map<string, Entry>, name: string): Option<Entry>
  {
    if name in dir then Some(dir[name]) else None
  }

  predicate IsDir(dir: map<string, Entry>, name: string)
  {
    name in dir && dir[name].Dir?
  }

  /**
   * What clearing leaves behind: subdirectories, and the regular files
   * whose removal failed (the names in `locked`).
   */
  function Cleared(dir: map<string, Entry>, locked: set<string>): map<string, Entry>
  {
    map name | name in dir && (dir[name].Dir? || name in locked) :: dir[name]
  }

  /**
   * Walks a snapshot of the directory listing in an unspecified order and
   * removes each entry that is a regular file.  A removal that fails (the
   * name is in `locked`) is ignored and the walk goes on.
   */
  method ClearDirectory(dir: map<string, Entry>, locked: set<string>) returns (cleared: map<string, Entry>)
    ensures cleared == Cleared(dir, locked)
    ensures forall name :: name in dir && dir[name].File? && name !in locked ==> name !in cleared
    ensures forall name :: IsDir(dir, name) ==> IsDir(cleared, name)
    ensures forall name :: name in cleared ==> name in dir && cleared[name] == dir[name]
  {
    cleared := dir;
    var listing := dir.Keys;
    while listing != {}
      invariant listing <= dir.Keys
      invariant forall name :: name in cleared <==> name in dir && (name in listing || dir[name].Dir? || name in locked)
      invariant forall name :: name in cleared ==> cleared[name] == dir[name]
      decreases |listing|
    {
      var name :| name in listing;
      if cleared[name].File? && name !in locked {
        cleared := cleared - {name};
      }
      listing := listing - {name};
    }
  }

  /** Clearing twice leaves what clearing once leaves. */
  lemma ClearedIdempotent(dir: map<string, Entry>, locked: set<string>)
    ensures Cleared(Cleared(dir, locked), locked) == Cleared(dir, locked)
  {
  }
}
