/**
 * The `get-locks` command: decoding its arguments, the read-permission check
 * on its path, and writing the success response that lists every lock the
 * repository reports below that path.
 *
 * The collaborators whose code is not part of this model are parameters:
 * `parse` is `Depth.parse`, `repositoryPath` is the session's
 * `getRepositoryPath`, `canRead` is the session's `checkRead`, and `getLocks`
 * is the repository's lock listing for the session's user and branch.
 */
module GetLocksCmd {
  import opened Wrappers
  import opened SvnWriter

  /** How far below the path the listing reaches. */
  datatype Depth = Empty | Files | Immediates | Infinity

  /** Decoded arguments of `get-locks`. */
  datatype Params = Params(path: string, depth: Depth)

  /**
   * The `Params` constructor: the optional depth word list becomes a `Depth`.
   * Only the first word is looked at; no word, or a word `parse` does not
   * know, means `Infinity`.
   */
  function DecodeParams(path: string, depth: seq<string>, parse: string -> Option<Depth>): (p: Params)
    ensures p.path == path
    ensures depth == [] ==> p.depth == Infinity
    ensures depth != [] && parse(depth[0]).None? ==> p.depth == Infinity
    ensures depth != [] && parse(depth[0]).Some? ==> p.depth == parse(depth[0]).value
    ensures p.depth != Infinity ==> depth != [] && parse(depth[0]) == Some(p.depth)
  {
    var parsed := if depth == [] then None else parse(depth[0]);
    Params(path, parsed.GetOr(Infinity))
  }

  /** Words after the first one never influence the decoded arguments. */
  lemma DecodeIgnoresLaterWords(path: string, first: string, rest: seq<string>, parse: string -> Option<Depth>)
    ensures DecodeParams(path, [first] + rest, parse) == DecodeParams(path, [first], parse)
  {
  }

  /** Outcome of the read-permission check. */
  datatype Verdict = Granted | Denied(path: string)

  /** `permissionCheck`: read access to the repository path of the argument. */
  function PermissionCheck(args: Params, repositoryPath: string -> string, canRead: string -> bool): (v: Verdict)
    ensures v == Granted <==> canRead(repositoryPath(args.path))
    ensures v.Denied? ==> v.path == repositoryPath(args.path)
  {
    var path := repositoryPath(args.path);
    if canRead(path) then Granted else Denied(path)
  }

  /** The arguments passed to the repository's lock listing. */
  datatype LockQuery = LockQuery(path: string, depth: Depth)

  /**
   * The permission check approves exactly the path whose locks are listed:
   * the query `ProcessCommand` issues is on the path `PermissionCheck` checks.
   */
  lemma CheckedPathIsQueriedPath(args: Params, repositoryPath: string -> string, canRead: string -> bool, query: LockQuery)
    requires query == LockQuery(repositoryPath(args.path), args.depth)
    ensures PermissionCheck(args, repositoryPath, canRead) == Granted <==> canRead(query.path)
    ensures PermissionCheck(args, repositoryPath, canRead).Denied? ==> PermissionCheck(args, repositoryPath, canRead).path == query.path
  {
  }

  /**
   * A one-shot iterator over a finite snapshot of locks.
   */
  class LockIterator<L> {
    const snapshot: seq<L>
    var cursor: nat

    ghost predicate Valid()
      reads this
    {
      cursor <= |snapshot|
    }

    constructor (locks: seq<L>)
      ensures Valid() && snapshot == locks && cursor == 0
    {
      snapshot := locks;
      cursor := 0;
    }

    /** The locks not yet handed out. */
    ghost function Remaining(): seq<L>
      reads this
      requires Valid()
    {
      snapshot[cursor..]
    }

    predicate HasNext()
      reads this
      requires Valid()
      ensures HasNext() <==> Remaining() != []
    {
      cursor < |snapshot|
    }

    method Next() returns (lock: L)
      requires Valid() && HasNext()
      modifies this
      ensures Valid()
      ensures lock == old(Remaining())[0]
      ensures Remaining() == old(Remaining())[1..]
    {
      lock := snapshot[cursor];
      cursor := cursor + 1;
    }
  }

  /** `LockCmd.writeLock`: appends one lock descriptor. */
  method WriteLock<L>(writer: Writer<L>, lock: L)
    modifies writer
    ensures writer.tokens == old(writer.tokens) + [LockDesc(lock)]
  {
    writer.tokens := writer.tokens + [LockDesc(lock)];
  }

  /** One descriptor per lock, in order. */
  function LockDescs<L>(locks: seq<L>): (ts: seq<Token<L>>)
    ensures |ts| == |locks|
    ensures Flat(ts)
  {
    if locks == [] then [] else LockDescs(locks[..|locks| - 1]) + [LockDesc(locks[|locks| - 1])]
  }

  /** The locks a token stream carries, in the order they appear. */
  function Locks<L>(ts: seq<Token<L>>): seq<L> {
    if ts == [] then []
    else (if ts[0].LockDesc? then [ts[0].lock] else []) + Locks(ts[1..])
  }

  /** The whole success response: `( success ( ( lockdesc ... ) ) )`. */
  function Response<L>(locks: seq<L>): seq<Token<L>> {
    List([Word("success")] + List(List(LockDescs(locks))))
  }

  lemma {:induction false} LocksConcat<L>(a: seq<Token<L>>, b: seq<Token<L>>)
    ensures Locks(a + b) == Locks(a) + Locks(b)
  {
    if a == [] {
      assert a + b == b;
    } else {
      assert (a + b)[0] == a[0] && (a + b)[1..] == a[1..] + b;
      LocksConcat(a[1..], b);
    }
  }

  lemma {:induction false} LocksOfLockDescs<L>(locks: seq<L>)
    ensures Locks(LockDescs(locks)) == locks
  {
    if locks != [] {
      var init := locks[..|locks| - 1];
      LocksOfLockDescs(init);
      LocksConcat(LockDescs(init), [LockDesc(locks[|locks| - 1])]);
      assert init + [locks[|locks| - 1]] == locks;
    }
  }

  /** Writing one more lock extends the descriptors by that lock's descriptor. */
  lemma LockDescsSnoc<L>(locks: seq<L>, k: nat)
    requires k < |locks|
    ensures LockDescs(locks[..k + 1]) == LockDescs(locks[..k]) + [LockDesc(locks[k])]
  {
    assert locks[..k + 1][..k] == locks[..k];
  }

  /** One turn of the drain loop: writing the next lock's descriptor extends the descriptors written so far. */
  lemma DrainStep<L>(prefix: seq<Token<L>>, locks: seq<L>, k: nat)
    requires k < |locks|
    ensures prefix + LockDescs(locks[..k]) + [LockDesc(locks[k])] == prefix + LockDescs(locks[..k + 1])
  {
    LockDescsSnoc(locks, k);
  }

  /** The tokens the handler writes, one group at a time, add up to the response. */
  lemma ResponseAfter<L>(before: seq<Token<L>>, locks: seq<L>)
    ensures before + [ListBegin] + [Word("success")] + [ListBegin] + [ListBegin] + LockDescs(locks) + [ListEnd] + [ListEnd] + [ListEnd]
            == before + Response(locks)
  {
    ResponseShape(locks);
  }

  /** The response as a flat stream: four opening tokens, the descriptors, three closing tokens. */
  lemma ResponseShape<L>(locks: seq<L>)
    ensures Response(locks) == [ListBegin, Word("success"), ListBegin, ListBegin] + LockDescs(locks) + [ListEnd, ListEnd, ListEnd]
    ensures |Response(locks)| == |locks| + 7
  {
  }

  /** With no locks the response is exactly `( success ( ( ) ) )`. */
  lemma EmptyResponse<L>()
    ensures Response<L>([]) == [ListBegin, Word("success"), ListBegin, ListBegin, ListEnd, ListEnd, ListEnd]
  {
  }

  /** The response is balanced: no prefix closes more lists than it opened, and it closes all it opens. */
  lemma ResponseWellNested<L>(locks: seq<L>)
    ensures WellNested(Response(locks))
  {
    var descs := LockDescs(locks);
    FlatWellNested(descs);
    ListWellNested(descs);
    ListWellNested(List(descs));
    FlatWellNested<L>([Word("success")]);
    ConcatWellNested([Word("success")], List(List(descs)));
    ListWellNested([Word("success")] + List(List(descs)));
  }

  /** The response opens and closes exactly three lists. */
  lemma ResponseListCounts<L>(locks: seq<L>)
    ensures multiset(Response(locks))[ListBegin] == 3
    ensures multiset(Response(locks))[ListEnd] == 3
  {
    var descs := LockDescs(locks);
    ResponseShape(locks);
    assert ListBegin !in descs && ListEnd !in descs;
  }

  /** Every lock appears in the response exactly once, in the order given. */
  lemma ResponseCarriesLocks<L>(locks: seq<L>)
    ensures Locks(Response(locks)) == locks
  {
    var descs := LockDescs(locks);
    ResponseShape(locks);
    LocksOfLockDescs(locks);
    LocksConcat([ListBegin, Word("success"), ListBegin, ListBegin], descs);
    LocksConcat([ListBegin, Word("success"), ListBegin, ListBegin] + descs, [ListEnd, ListEnd, ListEnd]);
  }

  /** A response written after balanced output leaves the output balanced. */
  lemma AppendResponseWellNested<L>(before: seq<Token<L>>, locks: seq<L>)
    requires WellNested(before)
    ensures WellNested(before + Response(locks))
  {
    ResponseWellNested(locks);
    ConcatWellNested(before, Response(locks));
  }

  /**
   * `processCommand`: lists the locks below the argument's repository path and
   * writes them inside a success response, draining the iterator.
   * `query` and `locks` expose the listing call it made and the iterator it
   * drained, so that the contract can speak of them.
   */
  method ProcessCommand<L>(writer: Writer<L>, args: Params,
                           repositoryPath: string -> string,
                           getLocks: (string, Depth) -> seq<L>)
    returns (query: LockQuery, locks: LockIterator<L>)
    modifies writer
    ensures query == LockQuery(repositoryPath(args.path), args.depth)
    ensures fresh(locks) && locks.Valid() && locks.snapshot == getLocks(query.path, query.depth)
    ensures !locks.HasNext()
    ensures writer.tokens == old(writer.tokens) + Response(locks.snapshot)
  {
    query := LockQuery(repositoryPath(args.path), args.depth);
    locks := new LockIterator(getLocks(query.path, query.depth));
    ghost var snapshot := locks.snapshot;
    ghost var before := writer.tokens;
    var w := writer.ListBegin();
    w := w.Word("success");
    w := w.ListBegin();
    w := w.ListBegin();
    ghost var prefix := writer.tokens;
    assert prefix + LockDescs(snapshot[..0]) == prefix;
    while locks.HasNext()
      invariant locks.Valid() && locks.snapshot == snapshot
      invariant writer.tokens == prefix + LockDescs(snapshot[..locks.cursor])
      decreases |snapshot| - locks.cursor
    {
      DrainStep(prefix, snapshot, locks.cursor);
      var lock := locks.Next();
      WriteLock(writer, lock);
    }
    assert snapshot[..locks.cursor] == snapshot;
    w := writer.ListEnd();
    w := w.ListEnd();
    w := w.ListEnd();
    ResponseAfter(before, snapshot);
  }
}
