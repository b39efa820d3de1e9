/**
 * Values shared by every part of the watch-and-dispatch model: filesystem
 * events and their operation flags, stat samples, the entries of a directory
 * walk, and the answers of the directory-watch primitive.
 */
module Events {

  datatype Option<+T> = None | Some(value: T)

  /** An error reported by the filesystem or by the watch primitive; the model only passes it on. */
  type Error = string

  datatype Result<+T> = Ok(value: T) | Err(error: Error)

  /** The operation field of an fsnotify event: a 32-bit set of flags. */
  type Op = bv32

  const CreateBit: Op := 1
  const WriteBit: Op := 2
  const RemoveBit: Op := 4
  const RenameBit: Op := 8
  const ChmodBit: Op := 16

  /** The event kinds as a closed enumeration. */
  datatype OpKind = Create | Write | Remove | Rename | Chmod

  /** The flag that stands for kind `k`. */
  function Bit(k: OpKind): Op
  {
    match k
    case Create => CreateBit
    case Write => WriteBit
    case Remove => RemoveBit
    case Rename => RenameBit
    case Chmod => ChmodBit
  }

  /** The kinds whose flag is set in `op`. */
  function Kinds(op: Op): set<OpKind>
  {
    set k | k in {Create, Write, Remove, Rename, Chmod} && op & Bit(k) != 0
  }

  /** Each kind's flag is a single bit of its own: the flag alone has exactly that kind. */
  lemma KindsOfBit(k: OpKind)
    ensures Kinds(Bit(k)) == {k}
  {
    assert k in Kinds(Bit(k));
    forall j | j in Kinds(Bit(k))
      ensures j == k
    {
      assert Bit(k) & Bit(j) != 0;
    }
  }

  /** Combining flags combines their kinds. */
  lemma KindsOfUnion(a: Op, b: Op)
    ensures Kinds(a | b) == Kinds(a) + Kinds(b)
  {
    forall k | k in {Create, Write, Remove, Rename, Chmod}
      ensures (a | b) & Bit(k) != 0 <==> a & Bit(k) != 0 || b & Bit(k) != 0
    {
      assert (a | b) & Bit(k) == (a & Bit(k)) | (b & Bit(k));
    }
  }

  /** The router's test `Op&Create == Create`. */
  predicate HasCreate(op: Op)
  {
    op & CreateBit == CreateBit
  }

  /** The worker's test `Op&(Create|Write) != 0`. */
  predicate HasCreateOrWrite(op: Op)
  {
    op & (CreateBit | WriteBit) != 0
  }

  /** The router's flag test holds exactly for events of kind Create. */
  lemma HasCreateMeansCreate(op: Op)
    ensures HasCreate(op) <==> Create in Kinds(op)
  {
  }

  /** The worker's flag test holds exactly for events of kind Create or Write. */
  lemma HasCreateOrWriteMeansCreateOrWrite(op: Op)
    ensures HasCreateOrWrite(op) <==> Create in Kinds(op) || Write in Kinds(op)
  {
    var ks := Kinds(op);
    assert Create in ks <==> op & 1 != 0;
    assert Write in ks <==> op & 2 != 0;
    assert op & (CreateBit | WriteBit) == op & 3;
  }

  /** A filesystem event: the path it concerns and its operation flags. */
  datatype Event = Event(name: string, op: Op)

  /** The answer of one os.Stat call. */
  datatype StatResult = StatErr(error: Error) | StatOk(isDir: bool, size: nat)
  {
    /** The stat succeeded and does not describe a directory. */
    predicate IsFile()
    {
      StatOk? && !isDir
    }
  }

  /** The identity of one fsnotify watcher. */
  datatype Handle = Handle(id: nat)

  /**
   * What the watch primitive answers when a directory is registered:
   * `create` is the result of fsnotify.NewWatcher and `add` the error
   * (if any) of watcher.Add on the directory.
   */
  datatype WatchOpen = WatchOpen(create: Result<Handle>, add: Option<Error>)

  /**
   * One call of the walk function made by filepath.Walk, in walk order:
   * either a visited path with whether it is a directory, or an error the
   * walk reports for a path.
   */
  datatype WalkItem = Visit(path: string, isDir: bool) | WalkErr(path: string, error: Error)
}
