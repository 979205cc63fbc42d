/**
 * The write-through store: an in-memory document of type `T` owned together with
 * the path of the file it is persisted to. The file is abstracted as the field
 * `disk`; serialisation is the identity on documents.
 */
module Persistence {
  import opened Wrappers

  /** What the file at a store's path holds when the store is opened. */
  datatype FileState<T> =
    | Missing            // no file at the path
    | Holds(document: T) // a file that decodes to `document`
    | Unreadable         // a file that cannot be opened, read or decoded

  class Persistent<T> {
    const path: string
    var inner: T
    /** The document currently in the file at `path`; `None` while there is no file. */
    var disk: Option<T>
    /** Every document written to the file since the store was opened, oldest first. */
    ghost var writes: seq<T>

    constructor Init(path: string, inner: T, disk: Option<T>)
      ensures this.path == path && this.inner == inner && this.disk == disk && writes == []
    {
      this.path := path;
      this.inner := inner;
      this.disk := disk;
      writes := [];
    }

    /**
     * `open`: load the document from the file if there is one, else start from
     * `default` (the type's `Default`) without creating the file. A file that
     * cannot be read or decoded aborts the process, modelled as `None`.
     */
    static method Open(path: string, file: FileState<T>, default: T) returns (store: Option<Persistent<T>>)
      ensures store.None? <==> file.Unreadable?
      ensures store.Some? ==> fresh(store.value) && store.value.path == path && store.value.writes == []
      ensures file.Missing? ==> store.Some? && store.value.inner == default && store.value.disk == None
      ensures file.Holds? ==> store.Some? && store.value.inner == file.document && store.value.disk == Some(file.document)
    {
      if file.Unreadable? {
        store := None;
      } else {
        var inner, disk := default, None;
        if file.Holds? {
          inner, disk := file.document, Some(file.document);
        }
        var s := new Persistent<T>.Init(path, inner, disk);
        store := Some(s);
      }
    }

    /**
     * `write`: apply the mutation `f` once to the document, then rewrite the whole
     * file with the new document (also when `f` changed nothing), and hand back
     * what `f` returned.
     */
    method Write<R>(f: T -> (T, R)) returns (r: R)
      modifies this
      ensures inner == f(old(inner)).0 && r == f(old(inner)).1
      ensures disk == Some(inner)
      ensures writes == old(writes) + [inner]
    {
      var (next, result) := f(inner);
      inner := next;
      disk := Some(next);
      writes := writes + [next];
      r := result;
    }

    /** `read` (and `deref`, which is the same): a view of the document. */
    function Read(): (document: T)
      reads this
      ensures document == inner
    {
      inner
    }
  }

  /**
   * After a write, opening the same file again yields the document the write left
   * in memory: the store round-trips through its file.
   */
  method ReopenAfterWrite<T>(store: Persistent<T>, f: T -> (T, ()), default: T) returns (reopened: Persistent<T>)
    modifies store
    ensures store.disk == Some(store.inner)
    ensures fresh(reopened) && reopened.path == store.path && reopened.inner == store.inner
  {
    var unit := store.Write(f);
    var loaded := Persistent<T>.Open(store.path, Holds(store.disk.value), default);
    reopened := loaded.value;
  }
}
