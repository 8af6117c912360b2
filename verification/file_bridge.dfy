/**
 * The pending-file bridge between the landing page and the editor: one
 * IndexedDB object store (`pending_uploads`) in which a single key, `file`,
 * holds the file handed over. Reading it takes it out, so it is read once.
 */
module FileBridge {

  /** A value that can sit in the store; `Undefined` is also what a read of a missing key yields. */
  datatype Value = FileValue(id: nat) | Null | Undefined

  /** `if (file)`: only a file object is truthy. */
  predicate Truthy(v: Value) {
    v.FileValue?
  }

  const FileKey := "file"

  /** `db.put(STORE_NAME, file, 'file')` on the store's contents. */
  function Put(entries: map<string, Value>, file: Value): (r: map<string, Value>)
    ensures FileKey in r && r[FileKey] == file
    ensures forall k :: k in entries && k != FileKey ==> k in r && r[k] == entries[k]
    ensures forall k :: k in r ==> k in entries || k == FileKey
  {
    entries[FileKey := file]
  }

  /** `db.get(STORE_NAME, 'file')`: the stored value, or undefined. */
  function Peek(entries: map<string, Value>): (v: Value)
    ensures FileKey !in entries ==> v == Undefined
  {
    if FileKey in entries then entries[FileKey] else Undefined
  }

  /** What `getPendingFile` does to the store: a truthy value is deleted, anything else is left. */
  function Take(entries: map<string, Value>): (r: map<string, Value>)
    ensures FileKey !in entries ==> r == entries
    ensures Truthy(Peek(entries)) ==> FileKey !in r
    ensures !Truthy(Peek(entries)) ==> r == entries
    ensures forall k :: k != FileKey ==> (k in r <==> k in entries)
    ensures forall k :: k in r ==> k in entries && r[k] == entries[k]
  {
    if Truthy(Peek(entries)) then entries - {FileKey} else entries
  }

  /** Handing a file over and reading it back yields that file. */
  lemma PutThenTake(entries: map<string, Value>, file: Value)
    ensures Peek(Put(entries, file)) == file
    ensures Truthy(file) ==> Peek(Take(Put(entries, file))) == Undefined
    ensures !Truthy(file) ==> Take(Put(entries, file)) == Put(entries, file)
  {
  }

  /** A second put replaces the first: only the latest file is pending. */
  lemma PutReplaces(entries: map<string, Value>, first: Value, second: Value)
    ensures Put(Put(entries, first), second) == Put(entries, second)
  {
  }

  /** Reading an empty slot yields undefined and leaves the store as it was. */
  lemma TakeEmpty(entries: map<string, Value>)
    requires FileKey !in entries
    ensures Peek(entries) == Undefined && Take(entries) == entries
  {
  }

  /** The object store behind the bridge. */
  class BridgeStore {
    var entries: map<string, Value>

    constructor ()
      ensures entries == map[]
    {
      entries := map[];
    }

    /** `setPendingFile(file)` */
    method SetPendingFile(file: Value)
      modifies this
      ensures entries == Put(old(entries), file)
    {
      entries := entries[FileKey := file];
    }

    /** `getPendingFile()`: read the slot, delete it if it held something truthy, return what was read. */
    method GetPendingFile() returns (file: Value)
      modifies this
      ensures file == Peek(old(entries))
      ensures entries == Take(old(entries))
    {
      file := if FileKey in entries then entries[FileKey] else Undefined;
      if Truthy(file) {
        entries := entries - {FileKey};
      }
    }
  }

  /** The landing page hands a file over and the editor picks it up: the editor gets it, and only once. */
  method HandOver(store: BridgeStore, file: Value) returns (first: Value, second: Value)
    modifies store
    ensures first == file
    ensures Truthy(file) ==> second == Undefined
    ensures !Truthy(file) ==> second == file
  {
    store.SetPendingFile(file);
    first := store.GetPendingFile();
    second := store.GetPendingFile();
  }
}
