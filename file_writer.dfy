/**
 * `FileWriter`: a download is written to `<name>.part` in the download
 * directory and renamed to `<name>` once complete. The directory is a map
 * from file names to their bytes; what a write puts in the file object is
 * taken to be in the file at once.
 */
module FileWriting {
  import opened Common

  type Byte = bv8
  type Bytes = seq<Byte>

  /** The download directory: each file's name and contents. */
  type Dir = map<string, Bytes>

  /** The partial file a download is written to before it is finalized. */
  function PartName(name: string): (p: string)
    ensures p != name && |p| == |name| + 5
  {
    name + ".part"
  }

  /** The file object of the writer: never opened, open for writing, or closed. */
  datatype Handle = Unopened | Writing | Closed

  /**
   * The directory after `open(name, resume)` and the size the writer records.
   * Resuming onto an existing `.part` keeps its bytes; otherwise the `.part`
   * starts empty, an old one being removed first.
   */
  function Opened(dir: Dir, name: string, resume: bool): (Dir, nat) {
    var tmp := PartName(name);
    if resume && tmp in dir then (dir, |dir[tmp]|) else (dir[tmp := []], 0)
  }

  /** The directory after writing `data` to the open `.part` file `tmp`. */
  function Appended(dir: Dir, tmp: string, data: Bytes): Dir
    requires tmp in dir
  {
    dir[tmp := dir[tmp] + data]
  }

  /**
   * The directory after `finalize`: any file at the final name is removed,
   * then the `.part` is renamed onto it. A missing `.part` makes the rename
   * raise after the final file is already gone.
   */
  function Finalized(dir: Dir, name: string): Result<Dir> {
    var tmp := PartName(name);
    if tmp in dir then Ok((dir - {name})[name := dir[tmp]] - {tmp}) else Err(ForeignError)
  }

  /**
   * `open(name, resume=False)` always starts an empty `.part`, whatever was
   * there; `open(name, resume=True)` keeps an existing `.part` and records its
   * length, and starts an empty one when there is none. Other files are untouched.
   */
  lemma OpenedContents(dir: Dir, name: string, resume: bool)
    ensures var (d, size) := Opened(dir, name, resume);
      && PartName(name) in d
      && (resume && PartName(name) in dir ==> d[PartName(name)] == dir[PartName(name)])
      && (!(resume && PartName(name) in dir) ==> d[PartName(name)] == [])
      && size == |d[PartName(name)]|
      && forall f | f != PartName(name) :: (f in d <==> f in dir) && (f in d ==> d[f] == dir[f])
  {
  }

  /**
   * Finalizing leaves the final name holding exactly the `.part` bytes, removes
   * the `.part`, replaces a previous final file and leaves every other file alone.
   */
  lemma FinalizedContents(dir: Dir, name: string)
    requires PartName(name) in dir
    ensures Finalized(dir, name).Ok?
    ensures var d := Finalized(dir, name).value;
      && name in d && d[name] == dir[PartName(name)] && PartName(name) !in d
      && forall f | f != name && f != PartName(name) :: (f in d <==> f in dir) && (f in d ==> d[f] == dir[f])
  {
  }

  /**
   * A download interrupted and resumed: open fresh, write `a`, close, open
   * resuming, write `b`, finalize. The final file holds exactly `a + b`.
   */
  lemma PauseResumeFinalize(dir: Dir, name: string, a: Bytes, b: Bytes)
    ensures var tmp := PartName(name);
      var d1 := Appended(Opened(dir, name, false).0, tmp, a);
      var d2 := Opened(d1, name, true);
      && d2.1 == |a|
      && var d3 := Appended(d2.0, tmp, b);
      && Finalized(d3, name).Ok? && Finalized(d3, name).value[name] == a + b
      && tmp !in Finalized(d3, name).value
  {
    var tmp := PartName(name);
    var d0 := Opened(dir, name, false).0;
    assert d0[tmp] == [];
    var d1 := Appended(d0, tmp, a);
    assert d1[tmp] == a;
    var d3 := Appended(Opened(d1, name, true).0, tmp, b);
    assert d3[tmp] == a + b;
    FinalizedContents(d3, name);
  }

  class FileWriter {
    var dir: Dir
    var tmp: string
    var final: string
    var handle: Handle
    var currentSize: nat

    /** Once opened, the writer's `.part` belongs to its final name; an open file exists. */
    ghost predicate Valid()
      reads this
    {
      && (handle != Unopened ==> tmp == PartName(final))
      && (handle == Writing ==> tmp in dir)
    }

    /** `FileWriter(base)`: the download directory with whatever it already holds. */
    constructor (dir: Dir)
      ensures Valid() && this.dir == dir && handle == Unopened
    {
      this.dir := dir;
      tmp := "";
      final := "";
      handle := Unopened;
      currentSize := 0;
    }

    /** `open(name, resume)`. */
    method Open(name: string, resume: bool)
      modifies this
      ensures Valid()
      ensures tmp == PartName(name) && final == name && handle == Writing
      ensures (dir, currentSize) == Opened(old(dir), name, resume)
    {
      tmp := PartName(name);
      final := name;
      if resume {
        if tmp in dir {
          currentSize := |dir[tmp]|;
        } else {
          dir := dir[tmp := []];
          currentSize := 0;
        }
      } else {
        ghost var before := dir;
        if tmp in dir {
          dir := dir - {tmp};
        }
        dir := dir[tmp := []];
        assert dir == before[tmp := []];
        currentSize := 0;
      }
      handle := Writing;
    }

    /**
     * `write(data)`: appended to the `.part`. Before any `open` there is no
     * file object (AttributeError); after `close` the file object refuses
     * (ValueError); either way nothing is written.
     */
    method Write(data: Bytes) returns (r: Outcome)
      requires Valid()
      modifies this
      ensures Valid()
      ensures tmp == old(tmp) && final == old(final) && handle == old(handle) && currentSize == old(currentSize)
      ensures r == Done <==> old(handle) == Writing
      ensures r != Done ==> r == Raised(ForeignError) && dir == old(dir)
      ensures r == Done ==> dir == Appended(old(dir), tmp, data)
    {
      if handle != Writing {
        return Raised(ForeignError);
      }
      dir := dir[tmp := dir[tmp] + data];
      r := Done;
    }

    /**
     * `get_current_size()`: the position of the open file, which is the length
     * of the `.part`, since the file is either appended to or truncated on
     * opening. A closed file object refuses `tell()`. The fallback reading the
     * `.part` from the directory is reachable only when no file object was ever
     * made, and then no `.part` name is known either, so it gives 0.
     */
    function GetCurrentSize(): (r: Result<nat>)
      requires Valid()
      reads this
      ensures handle == Unopened ==> r == Ok(0)
      ensures handle == Writing ==> r == Ok(|dir[tmp]|)
      ensures handle == Closed ==> r == Err(ForeignError)
    {
      match handle
      case Unopened => Ok(0)
      case Writing => Ok(|dir[tmp]|)
      case Closed => Err(ForeignError)
    }

    /**
     * `finalize()`: the file object is closed, a previous final file removed
     * and the `.part` renamed to the final name. Without a prior `open` there
     * is no file object to close (AttributeError).
     */
    method Finalize() returns (r: Outcome)
      requires Valid()
      modifies this
      ensures Valid()
      ensures tmp == old(tmp) && final == old(final) && currentSize == old(currentSize)
      ensures old(handle) == Unopened ==> r == Raised(ForeignError) && dir == old(dir) && handle == Unopened
      ensures old(handle) != Unopened ==> handle == Closed
      ensures old(handle) != Unopened && Finalized(old(dir), final).Ok? ==>
        r == Done && dir == Finalized(old(dir), final).value
      ensures old(handle) != Unopened && Finalized(old(dir), final).Err? ==>
        r == Raised(ForeignError) && dir == old(dir) - {final}
    {
      if handle == Unopened {
        return Raised(ForeignError);
      }
      handle := Closed;
      if final in dir {
        dir := dir - {final};
      }
      if tmp !in dir {
        return Raised(ForeignError);
      }
      dir := dir[final := dir[tmp]] - {tmp};
      r := Done;
    }

    /** `close()`: the file object is closed without finalizing; the `.part` stays. */
    method Close()
      requires Valid()
      modifies this
      ensures Valid()
      ensures dir == old(dir) && tmp == old(tmp) && final == old(final) && currentSize == old(currentSize)
      ensures handle == if old(handle) == Unopened then Unopened else Closed
    {
      if handle == Writing {
        handle := Closed;
      }
    }
  }
}
