# Zone-file delegation pipeline of `etl.py`, in Dafny

The program downloads the zone files of the `.com`, `.net` and `.name`
registries, picks the delegation (`NS`) lines out of each file, collects
their owner names, stages them in shard files keyed by the first two
characters of the name, and finally inserts them into a MongoDB collection
tagged with the zone's extension. This project models the line pipeline at
the heart of it and proves what it does:

- `text.dfy` (module `Text`): what the pipeline uses of Python strings:
  `str.split()` (runs of ASCII whitespace separate non-empty tokens),
  `str.split(sep)`, ASCII `upper`/`lower`, and the concatenation that
  repeated appends to one file produce. `sep.join` is there only as the
  inverse of `str.split(sep)` in a round-trip lemma; the program itself
  never joins.
- `classifier.dfy` (module `Classifier`): `check_line`, `extract_domain`,
  the name pattern `domain_regex`, and the names a line and a stream of
  lines contribute. `bad_start` is a parameter.
- `shards.dfy` (module `Shards`): the data directory as a map from shard key
  to file content, and what appending names to it does.
- `commit.dfy` (module `Commit`): the batches `commit` hands to
  `insert_many`, as a list instead of database calls.
- `etl.dfy` (module `Etl`): class `Job` holds the program's globals
  (`domains`, `bad_start`, `curr_ext`) and the data directory. Its methods
  are `ProcessLine` (`process_line`), `LinesToDisk` (`lines_to_disk`),
  `HandleLine` (one iteration of the line loop of `process_file`),
  `StreamLines` (that loop), `ProcessFile` (the loop and the final flush),
  `ProcessLinesOnDisk` (`process_lines_on_disk`), `RunZone` (the body of the
  main loop for one zone file) and `RunAll` (the main loop and the final
  reset). The object invariant `Valid()` ties the directory to the ghost
  list of all names written since the last reset, and every accepted name
  to either the accumulator or that list.

Set iteration order and the directory listing order are not fixed: the
loops over a set or over the directory choose elements with `:|`.
`Shards.AppendAll`, `Etl.Job.LinesToDisk`, `Etl.Job.HandleLine`,
`Etl.Job.ProcessLinesOnDisk` and `Etl.Job.RunZone` return the order used as
a ghost out-parameter; every property below holds for every order.
`Etl.Job.StreamLines`, `Etl.Job.ProcessFile` and `Etl.Job.RunZone` also return
the order of each flush, one list per flush window.

Which names each flush writes does not depend on any order. It depends on
the lines alone, and `Etl.Flushes` computes it as a fold over the lines.
Each line adds its name to the held set. Once that set has more than 100
names, it becomes one window and memory is cleared. `Etl.FileWindows` adds
the final flush. The methods are proved to write each window once, in some
order of its set, and nothing else.

## What the code does, as modelled

These behaviours are in the code, and the model keeps them.

- Only `line[:1]` is compared with `bad_start`. The entries `NS ` and the
  pushed `COM.`/`NET.`/`NAME.` are longer than one character, so they never
  exclude anything. A zone's apex line such as `COM. NS a.gtld-servers.net.`
  is accepted, with name `COM.` (`Classifier.ApexLineExample`).
- The pattern `[a-zA-Z\d-]{,63}(\.[a-zA-Z\d-]{,63})*` matches the empty
  string. `match` is anchored only at the start, so the test on the third
  token never rejects anything (`Classifier.NameRegexMatchesEverything`,
  `Classifier.AnyTargetExample`).
- Only indentation with a space is excluded. A line indented with a tab
  passes the first-character test, and `split()` drops the tab.
- The name is taken as it stands, trailing dot and case included. Nothing
  lower-cases it or strips the dot.
- `lines_to_disk` writes each name with no separator. A shard file is
  therefore the plain concatenation of its names. Splitting it on line breaks
  gives one piece, the whole content, so each shard produces exactly one
  record whose name is that concatenation.
- `commit` calls `insert_many` of the whole set once per element of the
  set. Here that means once per shard.
- Clearing the accumulator at a flush also forgets which names were already
  written. A name accepted again after a flush is written again, once for
  every flush window that holds it, so a shard can hold the same name twice.

The code has one zone layout, a name test that never rejects, no handling
of decode errors, no separator between written names, and no exclusion of
the apex record.

## Model

The definitions these rows are about model the source directly:
`Text.Tokens` is `str.split()` (etl.py:133, 142), `Text.SplitOn` is
`content.split("\n")` (etl.py:153), `Classifier.NameRegexMatches` is
`domain_regex.match` (etl.py:46, 136), and `Etl.Files` is the `files`
configuration (etl.py:12-29), in the order the main loop visits it.
`Etl.Flushes` is the line loop of `process_file` on sets (etl.py:91-93), and
`Etl.FileWindows` adds its final `lines_to_disk` (etl.py:105).


| member | source | states |
|---|---|---|
| `Text.TokensAreWords` | etl.py:133 | every token `line.split()` yields is non-empty and holds no whitespace, so no line break |
| `Text.TokensFirstIsPrefix` | etl.py:142 | on a line not opening with whitespace, the first token is a prefix of the line |
| `Text.TokensOfJoinSpace` | etl.py:133 | splitting words joined by single spaces gives back exactly those words |
| `Text.TokensOfSpaced` | etl.py:133 | on leading whitespace followed by words, each word followed by a run of whitespace (tabs, several spaces, a final line break), the tokens are exactly the words |
| `Text.SetOfFlatten` | etl.py:111-113 | writing one enumeration of each window, one after the other, writes exactly the names of their union |
| `Text.EnumerationOfEachMeans` | etl.py:111 | each list of the write orders lists its window's names, each exactly once |
| `Text.JoinSplitOn` | etl.py:153 | joining the pieces of `content.split("\n")` with the separator restores the content |
| `Text.SplitOnWithoutSep` | etl.py:153 | a content without the separator splits into the one-element list of itself |
| `Classifier.NameRegexMatchesEverything` | etl.py:46 | the name pattern matches a prefix (the empty one) of every string, so `match` always succeeds |
| `Classifier.CheckLine` | etl.py:126-138 | a line is accepted iff `line[:1]` is not in the exclusion list, it has at least three tokens and the second is exactly `NS`; the pattern test never rejects |
| `Classifier.ExtractDomain` | etl.py:140-142 | the extracted name is a non-empty, whitespace-free token, and a prefix of the line when the line does not open with whitespace |
| `Classifier.CommentDirectiveIndentRejected` | etl.py:129-130 | every line whose first character is `$`, `;` or a space is rejected while the initial entries are in the list |
| `Classifier.WideEntriesNeverExclude` | etl.py:129-130 | adding exclusion entries whose length is not one never changes the verdict on any line |
| `Classifier.ZoneExclusionIsFirstCharacterOnly` | etl.py:183 | for a non-empty extension, with the pushed `EXT.` entry in place, the verdict equals the verdict with only `$`, `;` and space excluded |
| `Classifier.CheckLineOfJoinSpace` | etl.py:133-138 | on words joined by spaces, acceptance reads the words (first character not excluded, at least three words, second is `NS`) and the name is the first word |
| `Classifier.CheckLineOfThreeWords` | etl.py:129-142 | a line of three space-joined words is accepted iff its first character is not excluded and the second word is `NS`; its name is the first word |
| `Classifier.CheckLineOfSpaced` | etl.py:129-142 | on such a whitespace-separated line, acceptance is: first character not excluded, at least three words, the second is `NS`; the name is the first word |
| `Classifier.TabSeparatedLineExample` | etl.py:126-142 | the tab-separated line `example.com.<TAB>NS<TAB>ns1.example.com.<LF>` is accepted and yields `example.com.` |
| `Classifier.TabIndentedLineExample` | etl.py:129-130 | a line indented with a tab is accepted: only a space is excluded as indentation, and `split()` drops the tab |
| `Classifier.Head1` | etl.py:129 | `line[:1]` is a prefix of the line, one character long on a non-empty line and empty on an empty one |
| `Classifier.AcceptedMeans` | etl.py:91-92 | a name is contributed by a stream iff some line of it is accepted and yields that name |
| `Classifier.AcceptedAreWords` | etl.py:91-92 | every name a stream contributes is a non-empty, whitespace-free token |
| `Classifier.AcceptedIgnoresWideEntries` | etl.py:183 | entries of a length other than one change nothing in what a whole stream contributes |
| `Classifier.DelegationLineExample` | etl.py:126-142 | `example.com. NS ns1.example.com.` is accepted and yields `example.com.` |
| `Classifier.CommentLineExample` | etl.py:129-130 | `; comment line` is rejected |
| `Classifier.LowerCaseTypeExample` | etl.py:135 | the type test is case-sensitive: a line with `ns` is rejected |
| `Classifier.ApexLineExample` | etl.py:183 | with `COM.` pushed, `COM. NS a.gtld-servers.net.` is still accepted and yields `COM.` |
| `Classifier.AnyTargetExample` | etl.py:136 | a third token that is no host name (`***`) does not cause a rejection |
| `Shards.ShardKeyIsPrefix` | etl.py:112 | the shard key `name[:2]` is a prefix of the name, two characters long unless the name is shorter |
| `Shards.AppendedContent` | etl.py:111-113 | after appending names, each shard holds its old content followed by the names keyed to it, in order, with no separator |
| `Shards.AppendedKeys` | etl.py:112 | a shard exists after appending iff it existed before or some name has its key |
| `Shards.AppendedAppend` | etl.py:111-113 | two flushes in a row append the same as one flush of both runs |
| `Shards.OfShardMembers` | etl.py:112 | every name routed to shard `k` has shard key `k` (`name[:2]`) |
| `Shards.InOwnShard` | etl.py:112 | every flushed name is routed to the shard of its own key |
| `Shards.OtherShardsUnchanged` | etl.py:111-113 | a shard whose key no flushed name has keeps its content, and stays absent if it was absent |
| `Shards.StoredInShard` | etl.py:111-113 | every flushed name occurs, contiguously, in the content of the shard of its key |
| `Shards.EveryFlushedNameStored` | etl.py:111-113 | starting from an empty directory, every written name occurs contiguously in the shard of its key |
| `Shards.ShardsAreConcatenations` | etl.py:111-113 | starting from an empty directory, each shard is exactly the concatenation of the names keyed to it, in write order |
| `Shards.AppendAll` | etl.py:111-113 | the append loop writes every name of the set once, in some enumeration of it, giving the directory of appending that enumeration |
| `Shards.ShardsHaveNoNewline` | etl.py:113 | a shard written only with tokens holds no line break |
| `Commit.BuildBatch` | etl.py:163 | the list comprehension yields one record per distinct name of the set, each tagged with the extension |
| `Commit.CommitNames` | etl.py:156-164 | `commit` emits as many batches as the set has names, each a full batch of the set, and all of them the same list |
| `Commit.CommitOfSingleton` | etl.py:162-163 | committing a one-name set sends exactly one batch of one record |
| `Commit.BatchesAgree` | etl.py:162-163 | any two batches of one commit are the same list, holding the records `{ext, name}` for each name of the set |
| `Etl.Job.constructor` | etl.py:42-45 | the job starts with an empty accumulator, the initial `bad_start` and an empty `curr_ext`; the directory starts empty in the model, where the program instead relies on `remake_directory` (etl.py:187) clearing it before it is first read |
| `Etl.Job.ProcessLine` | etl.py:116-124 | the accumulator gains the extracted name iff `check_line` accepts the line and nothing otherwise; adding a name already held leaves it unchanged |
| `Etl.Job.LinesToDisk` | etl.py:109-114 | every held name is appended once, in some enumeration of the set, to the shard of its key; the accumulator is then empty |
| `Etl.Job.HandleLine` | etl.py:92-93 | after each line the accumulator holds at most 100 names; it is flushed exactly when the line made it exceed 100 |
| `Etl.FlushesBounded` | etl.py:92-93 | memory never holds more than 100 names, and every window flushed inside the loop holds more than 100 |
| `Etl.FlushesCover` | etl.py:91-93 | the names still held together with the flushed windows are exactly the starting names and the names the accepted lines contribute |
| `Etl.FileWindowsCover` | etl.py:91-105 | the windows of a whole file, the final flush included, hold exactly the starting names and the accepted ones |
| `Etl.FlushesBelowThreshold` | etl.py:93 | while the names never exceed 100, nothing is flushed: memory ends holding all of them and no window is written |
| `Etl.SmallFileOneWindow` | etl.py:91-105 | a file contributing at most 100 names is written by the final flush alone, as one window of all its names, so each is written once |
| `Etl.FlushesIgnoreWideEntries` | etl.py:183 | exclusion entries of a length other than one change no window and nothing left in memory |
| `Etl.Job.StreamLine` | etl.py:91-93 | one line of the loop takes the held set and the writes from those of `Flushes` on the lines before it to those on the lines up to it |
| `Etl.Job.StreamLines` | etl.py:91-93 | after the line loop, memory holds exactly what `Flushes` leaves held, at most 100 names. The directory got exactly one enumeration of each window of `Flushes`, in window order. The names seen grew by exactly the names the accepted lines contribute |
| `Etl.Job.ProcessFile` | etl.py:88-106 | after the stream the accumulator is empty. The names written are exactly one enumeration of each window of `FileWindows`, in order, the final flush last. Every name an accepted line contributed has been written |
| `Etl.Job.ProcessLinesOnDisk` | etl.py:145-154 | one commit per shard, in some listing order, of the set of `content.split("\n")`; with no separator ever written, each is one batch holding the record of the whole content |
| `Etl.Job.RunZone` | etl.py:182-193 | for an ASCII extension: `bad_start` ends as it started and `curr_ext` empty. Records are tagged with the lower-cased extension. The names written are one enumeration of each window of `FileWindows` from an empty accumulator, in window order, so they are exactly the accepted ones. The windows are the same with or without the pushed entry. Each shard is the concatenation of its names in that write order, and each commit is one record of one whole shard |
| `Etl.Job.RunAll` | etl.py:181-196 | over every configured zone file, `bad_start` is restored, the directory ends empty, and each zone's records carry that zone's extension |

## Left out

- Fetching the archive (`fetch_file`, `ftp_user`, `ftp_pass`) is network transport and is not modelled. `discard_file` does nothing in the code and is not modelled either.
- Decompression: each zone file is given as the sequence of its decoded lines. `line.decode('ascii')` raises on a non-ASCII byte, so the methods require ASCII lines. That precondition also keeps Python's whitespace set down to the ASCII characters that `Text.IsSpace` lists.
- The database is not modelled: `db_config`, the MongoDB client, the unique index, and duplicate-key behaviour on insert. What remains is the list of batches `commit` would send.
- `Etl.Job.constructor`: the data directory starts as the empty map. The program does not clear `./data` at startup. A directory left over from an earlier run is cleared only by `remake_directory` at etl.py:187, which always runs before the directory is first read, and `Etl.Job.RunZone` resets the directory at that point too.
- The filesystem is a map from shard key to content. `remake_directory` is the empty map. File names, append-mode handles and any path hazard of a key holding `/` or `.` are not modelled.
- The `os.listdir` order and the set iteration order are arbitrary: methods pick elements with `:|` and report the order they used.
- The size-check pre-pass, the progress counters and the output to `sys.stdout` are display only and are not modelled.
- `Classifier.ExtractDomain`: the model requires the line to have a token, since `extract_domain` raises `IndexError` on a line without one. The program calls it only on accepted lines.
- The regex engine is not implemented. `domain_regex.match` is modelled as "some prefix of the token is in the pattern's language", which holds for every string.
- `commit` ends with `domains.clear()` on its argument. That clears a set its caller then drops, so it is not modelled.
- `Etl.Job.RunAll`: its contract gives only the shape of each zone's commits and their extension tag. The contents of every commit are stated per zone by `Etl.Job.RunZone`.
- `Etl.Job.ProcessLinesOnDisk`: no listing order is fixed, and the contract holds for every order.
