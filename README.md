# get-locks command handler of git-as-svn

git-as-svn serves Subversion clients from a Git repository. This project models
its `get-locks` command handler: how the command's arguments are decoded, which
repository path the read-permission check is applied to, and how the handler
writes the success response `( success ( ( lockdesc ... ) ) )` by draining the
lock iterator the repository returns.

Three modules:

- `Wrappers`: the `Option` type that stands for Kotlin's nullable values.
- `SvnWriter`: the tokens the protocol writer emits (`ListBegin`, `ListEnd`,
  `Word`, `LockDesc`), the `Writer` class with its append-only `tokens` buffer,
  and what a balanced token stream is (`WellNested`: no prefix closes more
  lists than it opened, and the whole stream closes every list it opened).
- `GetLocksCmd`: the depth values, the decoded `Params`, the permission check,
  a one-shot `LockIterator` over a finite snapshot of locks, the response as a
  function of the lock sequence (`Response`), and `ProcessCommand`, the
  imperative handler with its drain loop, proved to write exactly `Response`
  of the listed locks.

Collaborators whose code is not part of this model are parameters:
`Depth.parse` is `parse: string -> Option<Depth>`; the session's
`getRepositoryPath` is `repositoryPath: string -> string`; the session's
`checkRead` is `canRead: string -> bool`; the repository's `getLocks` for the
session's user and branch is `getLocks: (string, Depth) -> seq<L>`. A lock is
the type parameter `L`: `LockCmd.writeLock` appends one `LockDesc(lock)` token,
and its field-by-field encoding is not part of this model.

`ProcessCommand` returns the query it issued and the iterator it drained. The
Kotlin method returns nothing; the two results exist so that the contract can
say which path was queried and that the iterator is exhausted.

## Model

| member | source | states |
|---|---|---|
| `GetLocksCmd.DecodeParams` | src/main/kotlin/svnserver/server/command/GetLocksCmd.kt:52-54 | the path is kept; an empty depth list or a first word that does not parse gives `Infinity`; a first word that parses gives exactly its parsed depth; conversely any depth other than `Infinity` came from a parsed first word |
| `GetLocksCmd.DecodeIgnoresLaterWords` | src/main/kotlin/svnserver/server/command/GetLocksCmd.kt:53 | words after the first one in the depth list never change the decoded arguments |
| `GetLocksCmd.PermissionCheck` | src/main/kotlin/svnserver/server/command/GetLocksCmd.kt:48-50 | access is granted exactly when the repository path of the argument is readable; a denial names that repository path |
| `GetLocksCmd.CheckedPathIsQueriedPath` | src/main/kotlin/svnserver/server/command/GetLocksCmd.kt:32-50 | the path the permission check decides on is the path whose locks are listed, so a grant means the listed path is readable |
| `GetLocksCmd.LockIterator.constructor` | src/main/kotlin/svnserver/server/command/GetLocksCmd.kt:34 | a new iterator holds the listed locks as its snapshot and has handed out none of them |
| `GetLocksCmd.LockIterator.HasNext` | src/main/kotlin/svnserver/server/command/GetLocksCmd.kt:40 | the iterator has a next lock exactly when some lock of the snapshot has not been handed out |
| `GetLocksCmd.LockIterator.Next` | src/main/kotlin/svnserver/server/command/GetLocksCmd.kt:40 | returns the first lock not yet handed out and removes exactly that lock from the remaining ones |
| `GetLocksCmd.WriteLock` | src/main/kotlin/svnserver/server/command/GetLocksCmd.kt:40 | appends one lock descriptor for the given lock and nothing else |
| `GetLocksCmd.LockDescs` | src/main/kotlin/svnserver/server/command/GetLocksCmd.kt:40 | one descriptor per lock, and no list delimiter among them |
| `GetLocksCmd.LocksOfLockDescs` | src/main/kotlin/svnserver/server/command/GetLocksCmd.kt:40 | reading the locks back out of the descriptors gives the original locks in their original order |
| `GetLocksCmd.ResponseShape` | src/main/kotlin/svnserver/server/command/GetLocksCmd.kt:35-44 | the response starts with `ListBegin, Word("success"), ListBegin, ListBegin`, then holds the lock descriptors, then ends with three `ListEnd`; its length is the lock count plus seven |
| `GetLocksCmd.EmptyResponse` | src/main/kotlin/svnserver/server/command/GetLocksCmd.kt:35-44 | with no locks the response is exactly the seven framing tokens `( success ( ( ) ) )` |
| `GetLocksCmd.ResponseWellNested` | src/main/kotlin/svnserver/server/command/GetLocksCmd.kt:35-44 | the response is balanced for every lock sequence: no prefix has more ends than begins and the whole has as many ends as begins |
| `GetLocksCmd.ResponseListCounts` | src/main/kotlin/svnserver/server/command/GetLocksCmd.kt:35-44 | the response contains exactly three `ListBegin` and exactly three `ListEnd`, whatever the locks |
| `GetLocksCmd.ResponseCarriesLocks` | src/main/kotlin/svnserver/server/command/GetLocksCmd.kt:40 | the locks carried by the response are exactly the listed locks, each once, in iterator order |
| `GetLocksCmd.AppendResponseWellNested` | src/main/kotlin/svnserver/server/command/GetLocksCmd.kt:35-44 | appending the response to balanced writer output keeps the output balanced |
| `GetLocksCmd.ProcessCommand` | src/main/kotlin/svnserver/server/command/GetLocksCmd.kt:32-45 | locks are listed for the repository path of the argument at the decoded depth; the writer gains exactly the response for those locks, appended to what it held; the iterator is exhausted |
| `SvnWriter.Writer.ListBegin` | src/main/kotlin/svnserver/server/command/GetLocksCmd.kt:36 | appends one list opening and returns the same writer |
| `SvnWriter.Writer.Word` | src/main/kotlin/svnserver/server/command/GetLocksCmd.kt:37 | appends one word and returns the same writer |
| `SvnWriter.Writer.ListEnd` | src/main/kotlin/svnserver/server/command/GetLocksCmd.kt:42 | appends one list closing and returns the same writer |
| `SvnWriter.FlatWellNested` | src/main/kotlin/svnserver/server/command/GetLocksCmd.kt:40 | any run of lock descriptors and words is balanced at every point of writing it |
| `SvnWriter.ConcatWellNested` | src/main/kotlin/svnserver/server/command/GetLocksCmd.kt:35-44 | two balanced streams written one after the other form a balanced stream |
| `SvnWriter.ListWellNested` | src/main/kotlin/svnserver/server/command/GetLocksCmd.kt:35-44 | enclosing a balanced stream in a list gives a balanced stream |

## Left out

- `wrapLockRead` (GetLocksCmd.kt:34): the read/write lock coordination between sessions is concurrency; the model takes the listed locks as a finite sequence fixed when the handler starts.
- `getLocks`, `Depth.parse`, `checkRead`, `getRepositoryPath`: their code is not part of this model, so they are opaque function parameters; no depth ordering and no lock filtering by depth is modelled.
- `LockCmd.writeLock`: its field encoding (path, token, owner, comment, dates) is not part of this model; a lock is written as one opaque `LockDesc` token.
- `SvnServerWriter`: its byte-level output is not part of this model; the writer is modelled as the sequence of tokens it is asked to write.
- `IOException` and `SVNException` propagation: a denial by `checkRead` is modelled as the `Denied` verdict; I/O failures while writing are not modelled.
- GetLocksCmd.LockIterator.Next: requires that a next lock exists, as the iterator protocol demands of its callers; the handler only calls it after `HasNext`, so the exhausted-iterator exception is not modelled.
- The dispatch cycle in `BaseCmd` that runs `permissionCheck` before `processCommand` is not part of this model; the lemma `CheckedPathIsQueriedPath` only relates the paths the two use.
- `build.gradle.kts`, `LfsStorageFactory.java` and `VcsSupplier.kt` carry build configuration, a registry lookup and an interface without behaviour; none is modelled.
