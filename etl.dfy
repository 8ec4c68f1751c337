/**
 * The ingestion job of `etl.py`: the global accumulator `domains`, the shard
 * directory, the exclusion list `bad_start` and the current extension
 * `curr_ext`, gathered into one object whose methods are the program's
 * `process_line`, `lines_to_disk`, the line loop of `process_file`,
 * `process_lines_on_disk` and the per-file body of the main loop.
 *
 * The decompressed zone file is given as its sequence of lines; fetching,
 * decompressing and the database are not modelled (see README.md).
 */
module Etl {
  import opened Text
  import opened Classifier
  import opened Shards
  import opened Commit

  /** `process_file` flushes the accumulator once it holds more names than this. */
  const FlushThreshold: nat := 100

  /** One entry of the `files` configuration. */
  datatype ZoneConfig = ZoneConfig(server: string, zoneFile: string, ext: string)

  /** The `files` configuration, servers and files in the order the main loop
      visits them. */
  const Files: seq<ZoneConfig> := [
    ZoneConfig("rz.verisign-grs.com", "com.zone.gz", "com"),
    ZoneConfig("rz.verisign-grs.com", "net.zone.gz", "net"),
    ZoneConfig("rzname.verisign-grs.com", "master.name.zone.gz", "name")
  ]

  /** Every configured extension is ASCII. */
  lemma FilesAreAscii(i: int)
    requires 0 <= i < |Files|
    ensures IsAscii(Files[i].ext)
  {
    assert Files[0].ext == "com" && Files[1].ext == "net" && Files[2].ext == "name";
  }

  predicate AllAscii(lines: seq<string>) {
    forall i | 0 <= i < |lines| :: IsAscii(lines[i])
  }

  // ---------------------------------------------------------------------------
  // The flush windows of `process_file`

  /** Where the line loop of `process_file` stands: the names still held in
      memory, and the sets written out so far, one per flush, in order. */
  datatype Progress = Progress(held: set<string>, windows: seq<set<string>>)

  /** The line loop of `process_file` on sets, starting with `held` in memory:
      each line adds its name, and as soon as the held set has more than
      `FlushThreshold` names it is written out as one window and memory is
      cleared. Which names are written by which flush depends on the lines
      alone; only the order inside a window is the set's. */
  function Flushes(held: set<string>, lines: seq<string>, badStart: seq<string>): Progress {
    if lines == [] then Progress(held, [])
    else
      var p := Flushes(held, lines[..|lines| - 1], badStart);
      var grown := p.held + LineNames(lines[|lines| - 1], badStart);
      if |grown| > FlushThreshold then Progress({}, p.windows + [grown])
      else Progress(grown, p.windows)
  }

  /** Every window `process_file` writes: those of the loop, then the final
      flush of what is still held (possibly empty, then nothing is written). */
  function FileWindows(held: set<string>, lines: seq<string>, badStart: seq<string>): seq<set<string>> {
    var p := Flushes(held, lines, badStart);
    p.windows + [p.held]
  }

  lemma FlushesStep(held: set<string>, lines: seq<string>, i: int, badStart: seq<string>)
    requires 0 <= i < |lines|
    ensures Flushes(held, lines[..i + 1], badStart) ==
              var p := Flushes(held, lines[..i], badStart);
              var grown := p.held + LineNames(lines[i], badStart);
              if |grown| > FlushThreshold then Progress({}, p.windows + [grown])
              else Progress(grown, p.windows)
  {
    assert lines[..i + 1][..i] == lines[..i];
  }

  /** One line of the loop, for the state before it (`held`, `writes`) and
      after it: the flush happens exactly when the grown set passes the
      threshold, and its order is appended to the writes. */
  lemma FlushesGrow(start: set<string>, lines: seq<string>, i: int, badStart: seq<string>,
                    held: set<string>, writes: seq<seq<string>>, order: seq<string>,
                    heldAfter: set<string>, writesAfter: seq<seq<string>>)
    requires 0 <= i < |lines|
    requires held == Flushes(start, lines[..i], badStart).held
    requires IsEnumerationOfEach(writes, Flushes(start, lines[..i], badStart).windows)
    requires var grown := held + LineNames(lines[i], badStart);
             if |grown| > FlushThreshold then
               heldAfter == {} && IsEnumeration(order, grown) && writesAfter == writes + [order]
             else
               heldAfter == grown && writesAfter == writes
    ensures heldAfter == Flushes(start, lines[..i + 1], badStart).held
    ensures IsEnumerationOfEach(writesAfter, Flushes(start, lines[..i + 1], badStart).windows)
  {
    FlushesStep(start, lines, i, badStart);
    var p := Flushes(start, lines[..i], badStart);
    var grown := held + LineNames(lines[i], badStart);
    if |grown| > FlushThreshold {
      assert Flushes(start, lines[..i + 1], badStart) == Progress({}, p.windows + [grown]);
      EnumerationOfEachSnoc(writes, p.windows, order, grown);
    } else {
      assert Flushes(start, lines[..i + 1], badStart) == Progress(grown, p.windows);
    }
  }

  /** The names written after one line: the flush's order, when it flushes. */
  lemma WrittenGrow(flush: bool, base: seq<string>, writes: seq<seq<string>>, written: seq<string>,
                    order: seq<string>, writesAfter: seq<seq<string>>, writtenAfter: seq<string>)
    requires written == base + Flatten(writes)
    requires writesAfter == if flush then writes + [order] else writes
    requires writtenAfter == if flush then written + order else written
    ensures writtenAfter == base + Flatten(writesAfter)
  {
    if flush {
      FlattenSnoc(writes, order);
    }
  }

  /** Memory never holds more than the threshold and every loop window holds
      more than it. */
  lemma {:induction false} FlushesBounded(held: set<string>, lines: seq<string>, badStart: seq<string>)
    requires |held| <= FlushThreshold
    ensures |Flushes(held, lines, badStart).held| <= FlushThreshold
    ensures forall j | 0 <= j < |Flushes(held, lines, badStart).windows| ::
              |Flushes(held, lines, badStart).windows[j]| > FlushThreshold
  {
    if lines != [] {
      var n := |lines| - 1;
      FlushesBounded(held, lines[..n], badStart);
    }
  }

  /** Held and written names together are exactly the starting names and the
      names the accepted lines contributed. */
  lemma {:induction false} FlushesCover(held: set<string>, lines: seq<string>, badStart: seq<string>)
    ensures Flushes(held, lines, badStart).held + UnionOf(Flushes(held, lines, badStart).windows)
              == held + Accepted(lines, badStart)
  {
    if lines != [] {
      var n := |lines| - 1;
      FlushesCover(held, lines[..n], badStart);
      var p := Flushes(held, lines[..n], badStart);
      var names := LineNames(lines[n], badStart);
      var grown := p.held + names;
      assert p.held + UnionOf(p.windows) == held + Accepted(lines[..n], badStart);
      assert Accepted(lines, badStart) == Accepted(lines[..n], badStart) + names;
      if |grown| > FlushThreshold {
        assert UnionOf(p.windows + [grown]) == UnionOf(p.windows) + grown by {
          assert (p.windows + [grown])[..|p.windows|] == p.windows;
        }
        assert Flushes(held, lines, badStart) == Progress({}, p.windows + [grown]);
      } else {
        assert Flushes(held, lines, badStart) == Progress(grown, p.windows);
      }
    }
  }

  /** The windows of a whole file hold exactly the starting names and the
      accepted ones. */
  lemma FileWindowsCover(held: set<string>, lines: seq<string>, badStart: seq<string>)
    ensures UnionOf(FileWindows(held, lines, badStart)) == held + Accepted(lines, badStart)
  {
    FlushesCover(held, lines, badStart);
    var p := Flushes(held, lines, badStart);
    assert (p.windows + [p.held])[..|p.windows|] == p.windows;
    assert UnionOf(p.windows + [p.held]) == UnionOf(p.windows) + p.held;
  }

  /** While the names never exceed the threshold, nothing is flushed: a stream
      contributing at most 100 names in all ends with all of them in memory. */
  lemma {:induction false} FlushesBelowThreshold(held: set<string>, lines: seq<string>, badStart: seq<string>)
    requires |held + Accepted(lines, badStart)| <= FlushThreshold
    ensures Flushes(held, lines, badStart) == Progress(held + Accepted(lines, badStart), [])
  {
    if lines != [] {
      var n := |lines| - 1;
      var names := LineNames(lines[n], badStart);
      var before := held + Accepted(lines[..n], badStart);
      assert Accepted(lines, badStart) == Accepted(lines[..n], badStart) + names;
      SubsetCardinality(before, held + Accepted(lines, badStart));
      FlushesBelowThreshold(held, lines[..n], badStart);
      assert Flushes(held, lines[..n], badStart) == Progress(before, []);
      assert before + names == held + Accepted(lines, badStart);
    }
  }

  /** A file contributing at most 100 names is written by the final flush
      alone, so every name it contributes is written exactly once. */
  lemma SmallFileOneWindow(lines: seq<string>, badStart: seq<string>)
    requires |Accepted(lines, badStart)| <= FlushThreshold
    ensures FileWindows({}, lines, badStart) == [Accepted(lines, badStart)]
  {
    assert {} + Accepted(lines, badStart) == Accepted(lines, badStart);
    FlushesBelowThreshold({}, lines, badStart);
  }

  lemma SubsetCardinality(a: set<string>, b: set<string>)
    requires a <= b
    ensures |a| <= |b|
  {
    assert b == a + (b - a);
  }

  /** Entries of a length other than one change no window. */
  lemma {:induction false} FlushesIgnoreWideEntries(held: set<string>, lines: seq<string>, badStart: seq<string>, wide: seq<string>)
    requires forall e | e in wide :: |e| != 1
    ensures Flushes(held, lines, badStart + wide) == Flushes(held, lines, badStart)
  {
    if lines != [] {
      FlushesIgnoreWideEntries(held, lines[..|lines| - 1], badStart, wide);
      WideEntriesNeverExclude(lines[|lines| - 1], badStart, wide);
    }
  }

  /** Each commit of a zone is one batch holding one record tagged `ext`. */
  predicate TaggedCommits(commits: seq<seq<Batch>>, ext: string) {
    forall j | 0 <= j < |commits| ::
      |commits[j]| == 1 && |commits[j][0]| == 1 && commits[j][0][0].ext == ext
  }

  lemma TaggedSnoc(commits: seq<seq<seq<Batch>>>, zoneCommits: seq<seq<Batch>>, i: int)
    requires |commits| == i < |Files|
    requires forall a | 0 <= a < i :: TaggedCommits(commits[a], Lower(Files[a].ext))
    requires TaggedCommits(zoneCommits, Lower(Files[i].ext))
    ensures forall a | 0 <= a < i + 1 :: TaggedCommits((commits + [zoneCommits])[a], Lower(Files[a].ext))
  {
  }

  class Job {
    /** The in-memory accumulator (the global `domains`). */
    var domains: set<string>
    /** The data directory: shard key to file content. */
    var shards: ShardMap
    /** The exclusion prefixes (the global `bad_start`). */
    var badStart: seq<string>
    /** The extension being processed (the global `curr_ext`). */
    var currExt: string

    /** Every name accepted since the data directory was last reset. */
    ghost var seen: set<string>
    /** Every name written to the data directory since its last reset, in
        the order of the writes. */
    ghost var flushed: seq<string>

    /** The data directory is exactly the writes since the reset; every
        accepted name is either still held in memory or has been written;
        all names are whitespace-free tokens. */
    ghost predicate Valid()
      reads this
    {
      && shards == Appended(map[], flushed)
      && seen == domains + SetOf(flushed)
      && (forall d | d in domains :: IsWord(d))
      && (forall i | 0 <= i < |flushed| :: IsWord(flushed[i]))
    }

    /** The globals as the script starts. */
    constructor ()
      ensures Valid()
      ensures domains == {} && shards == map[]
      ensures badStart == InitialBadStart && currExt == ""
    {
      domains := {};
      shards := map[];
      badStart := InitialBadStart;
      currExt := "";
      seen := {};
      flushed := [];
    }

    /** `process_line`: decode the line (it must be ASCII, or decoding raises),
        and add its extracted name to the accumulator when `check_line`
        accepts it. Adding a name already held changes nothing. */
    method ProcessLine(line: string)
      requires Valid() && IsAscii(line)
      modifies this`domains, this`seen
      ensures Valid()
      ensures domains == old(domains) + LineNames(line, badStart)
      ensures seen == old(seen) + LineNames(line, badStart)
      ensures CheckLine(line, badStart) && ExtractDomain(line) in old(domains) ==> domains == old(domains)
    {
      if !CheckLine(line, badStart) {
        return;
      }
      var domain := ExtractDomain(line);
      domains := domains + {domain};
      seen := seen + {domain};
    }

    /** `lines_to_disk`: append every held name, in the set's iteration order
        and with no separator, to the shard file keyed by its first two
        characters; then clear the accumulator. */
    method LinesToDisk() returns (ghost order: seq<string>)
      requires Valid()
      modifies this`domains, this`shards, this`flushed
      ensures Valid()
      ensures IsEnumeration(order, old(domains))
      ensures shards == Appended(old(shards), order)
      ensures flushed == old(flushed) + order
      ensures domains == {}
    {
      var written;
      written, order := AppendAll(shards, domains);
      shards := written;
      forall i | 0 <= i < |order| ensures IsWord(order[i]) {
        assert order[i] in SetOf(order);
      }
      flushed := flushed + order;
      AppendedAppend(map[], old(flushed), order);
      SetOfAppend(old(flushed), order);
      domains := {};
    }

    /** The body of the `process_file` loop for one line: process it, and
        flush when the accumulator holds more than 100 names. Afterwards the
        accumulator holds at most 100 names. */
    method HandleLine(line: string) returns (ghost order: seq<string>)
      requires Valid() && IsAscii(line) && |domains| <= FlushThreshold
      modifies this`domains, this`shards, this`seen, this`flushed
      ensures Valid() && |domains| <= FlushThreshold
      ensures seen == old(seen) + LineNames(line, badStart)
      ensures old(flushed) <= flushed
      ensures var grown := old(domains) + LineNames(line, badStart);
              if |grown| > FlushThreshold then
                domains == {} && IsEnumeration(order, grown) && flushed == old(flushed) + order
              else
                domains == grown && order == [] && flushed == old(flushed) && shards == old(shards)
    {
      ProcessLine(line);
      order := [];
      if |domains| > FlushThreshold {
        order := LinesToDisk();
      }
    }

    /** Line `i` of the loop of `process_file`, stated as the step of
        `Accepted` and `Flushes` from `lines[..i]` to `lines[..i + 1]`. */
    method StreamLine(lines: seq<string>, i: int, ghost start: set<string>, ghost seen0: set<string>,
                      ghost base: seq<string>, ghost writes: seq<seq<string>>)
      returns (ghost writesAfter: seq<seq<string>>)
      requires 0 <= i < |lines| && IsAscii(lines[i])
      requires Valid() && |domains| <= FlushThreshold
      requires seen == seen0 + Accepted(lines[..i], badStart)
      requires domains == Flushes(start, lines[..i], badStart).held
      requires IsEnumerationOfEach(writes, Flushes(start, lines[..i], badStart).windows)
      requires flushed == base + Flatten(writes)
      modifies this`domains, this`shards, this`seen, this`flushed
      ensures Valid() && |domains| <= FlushThreshold
      ensures seen == seen0 + Accepted(lines[..i + 1], badStart)
      ensures domains == Flushes(start, lines[..i + 1], badStart).held
      ensures IsEnumerationOfEach(writesAfter, Flushes(start, lines[..i + 1], badStart).windows)
      ensures flushed == base + Flatten(writesAfter)
    {
      ghost var before, held, written := seen, domains, flushed;
      ghost var order := HandleLine(lines[i]);
      AcceptedGrow(lines, i, badStart, seen0, before, seen);
      ghost var flush := |held + LineNames(lines[i], badStart)| > FlushThreshold;
      writesAfter := if flush then writes + [order] else writes;
      FlushesGrow(start, lines, i, badStart, held, writes, order, domains, writesAfter);
      WrittenGrow(flush, base, writes, written, order, writesAfter, flushed);
    }

    /** The line loop of `process_file`: every line is processed, and the
        accumulator is flushed whenever it has grown past 100 names. What stays
        in memory and which names each flush writes are those of `Flushes`;
        `writes` gives the order each flush wrote its set in. */
    method StreamLines(lines: seq<string>) returns (ghost writes: seq<seq<string>>)
      requires Valid() && |domains| <= FlushThreshold && AllAscii(lines)
      modifies this`domains, this`shards, this`seen, this`flushed
      ensures Valid() && |domains| <= FlushThreshold
      ensures seen == old(seen) + Accepted(lines, badStart)
      ensures domains == Flushes(old(domains), lines, badStart).held
      ensures IsEnumerationOfEach(writes, Flushes(old(domains), lines, badStart).windows)
      ensures flushed == old(flushed) + Flatten(writes)
    {
      writes := [];
      var i := 0;
      while i < |lines|
        invariant 0 <= i <= |lines|
        invariant Valid() && |domains| <= FlushThreshold
        invariant seen == old(seen) + Accepted(lines[..i], badStart)
        invariant domains == Flushes(old(domains), lines[..i], badStart).held
        invariant IsEnumerationOfEach(writes, Flushes(old(domains), lines[..i], badStart).windows)
        invariant flushed == old(flushed) + Flatten(writes)
      {
        writes := StreamLine(lines, i, old(domains), old(seen), old(flushed), writes);
        i := i + 1;
      }
      assert lines[..|lines|] == lines;
    }

    /** `process_file` without its progress output: the line loop, then the
        final flush. Every window of `FileWindows` is written once, in some
        order of its set, and nothing else; the accumulator ends empty. */
    method ProcessFile(lines: seq<string>) returns (ghost writes: seq<seq<string>>)
      requires Valid() && |domains| <= FlushThreshold && AllAscii(lines)
      modifies this`domains, this`shards, this`seen, this`flushed
      ensures Valid() && domains == {}
      ensures seen == old(seen) + Accepted(lines, badStart)
      ensures SetOf(flushed) == old(domains) + SetOf(old(flushed)) + Accepted(lines, badStart)
      ensures IsEnumerationOfEach(writes, FileWindows(old(domains), lines, badStart))
      ensures flushed == old(flushed) + Flatten(writes)
    {
      writes := StreamLines(lines);
      ghost var written := flushed;
      ghost var last := LinesToDisk();
      WrittenGrow(true, old(flushed), writes, written, last, writes + [last], flushed);
      EnumerationOfEachSnoc(writes, Flushes(old(domains), lines, badStart).windows,
                            last, Flushes(old(domains), lines, badStart).held);
      writes := writes + [last];
    }

    /** `process_lines_on_disk`: for every shard file, in the directory's
        listing order, split its content on line breaks, build the set of the
        pieces and commit it. Since no separator is ever written, every shard
        yields the one-element set of its whole content and so exactly one
        batch holding one record. */
    method ProcessLinesOnDisk() returns (commits: seq<seq<Batch>>, ghost order: seq<string>)
      ensures IsEnumeration(order, shards.Keys)
      ensures |commits| == |order|
      ensures forall i | 0 <= i < |order| ::
                order[i] in shards && IsCommitOf(commits[i], SetOf(SplitOn(shards[order[i]], '\n')), currExt)
      ensures Valid() ==> forall i | 0 <= i < |order| ::
                order[i] in shards && commits[i] == [[Record(currExt, shards[order[i]])]]
    {
      commits := [];
      order := [];
      var rest := shards.Keys;
      while rest != {}
        invariant rest <= shards.Keys
        invariant SetOf(order) == shards.Keys - rest && Distinct(order)
        invariant |commits| == |order|
        invariant forall i | 0 <= i < |order| ::
                    order[i] in shards && IsCommitOf(commits[i], SetOf(SplitOn(shards[order[i]], '\n')), currExt)
        decreases rest
      {
        var file :| file in rest;
        var content := shards[file];
        var names := SetOf(SplitOn(content, '\n'));
        var batches := CommitNames(names, currExt);
        SetOfSnoc(order, file);
        commits := commits + [batches];
        order := order + [file];
        rest := rest - {file};
      }
      if Valid() {
        forall i | 0 <= i < |order| ensures commits[i] == [[Record(currExt, shards[order[i]])]] {
          var content := shards[order[i]];
          ShardsHaveNoNewline(flushed, order[i]);
          SplitOnWithoutSep(content, '\n');
          assert SetOf(SplitOn(content, '\n')) == {content};
          CommitOfSingleton(commits[i], content, currExt);
        }
      }
    }

    /** One iteration of the main loop for a configured zone file: push the
        upper-cased extension with a dot onto `bad_start`, set `curr_ext` to
        the lower-cased extension, reset the data directory, process the
        lines, commit the shards, then pop `bad_start` and clear `curr_ext`.
        `bad_start` ends as it started; the commits are tagged with the
        lower-cased extension; every accepted name reaches its shard, written
        once for each window of `FileWindows` that holds it. The
        extension is ASCII, where `Upper` and `Lower` agree with Python's
        `str.upper()` and `str.lower()`. */
    method RunZone(zone: ZoneConfig, lines: seq<string>)
      returns (commits: seq<seq<Batch>>, ghost order: seq<string>, ghost writes: seq<seq<string>>)
      requires Valid() && domains == {} && AllAscii(lines) && IsAscii(zone.ext)
      modifies this
      ensures Valid() && domains == {}
      ensures badStart == old(badStart) && currExt == ""
      ensures SetOf(flushed) == Accepted(lines, old(badStart) + [Upper(zone.ext) + "."])
      ensures zone.ext != [] ==> SetOf(flushed) == Accepted(lines, old(badStart))
      ensures IsEnumerationOfEach(writes, FileWindows({}, lines, old(badStart) + [Upper(zone.ext) + "."]))
      ensures zone.ext != [] ==> FileWindows({}, lines, old(badStart) + [Upper(zone.ext) + "."]) == FileWindows({}, lines, old(badStart))
      ensures flushed == Flatten(writes)
      ensures forall d | d in SetOf(flushed) ::
                ShardKey(d) in shards && IsFactor(d, shards[ShardKey(d)])
      ensures forall k | k in shards :: shards[k] == Concat(OfShard(flushed, k))
      ensures IsEnumeration(order, shards.Keys) && |commits| == |order|
      ensures forall i | 0 <= i < |order| ::
                order[i] in shards && commits[i] == [[Record(Lower(zone.ext), shards[order[i]])]]
      ensures TaggedCommits(commits, Lower(zone.ext))
    {
      badStart := badStart + [Upper(zone.ext) + "."];
      currExt := Lower(zone.ext);
      // fetch_file is transport; remake_directory empties the data directory
      shards := map[];
      flushed := [];
      seen := {};
      writes := ProcessFile(lines);
      // discard_file does nothing
      commits, order := ProcessLinesOnDisk();
      forall j | 0 <= j < |commits|
        ensures |commits[j]| == 1 && |commits[j][0]| == 1 && commits[j][0][0].ext == Lower(zone.ext)
      {
        assert commits[j] == [[Record(currExt, shards[order[j]])]];
      }
      badStart := badStart[..|badStart| - 1];
      currExt := "";
      if zone.ext != [] {
        AcceptedIgnoresWideEntries(lines, old(badStart), [Upper(zone.ext) + "."]);
        FlushesIgnoreWideEntries({}, lines, old(badStart), [Upper(zone.ext) + "."]);
      }
      EveryFlushedNameStored(flushed);
      ShardsAreConcatenations(flushed);
    }

    /** The main loop over every configured zone file, then the final reset
        of the data directory. `inputs[i]` stands for the decompressed lines
        of `Files[i]`. */
    method RunAll(inputs: seq<seq<string>>) returns (commits: seq<seq<seq<Batch>>>)
      requires Valid() && domains == {}
      requires |inputs| == |Files| && forall i | 0 <= i < |inputs| :: AllAscii(inputs[i])
      modifies this
      ensures Valid() && domains == {} && shards == map[]
      ensures badStart == old(badStart) && currExt == ""
      ensures |commits| == |Files|
      ensures forall i | 0 <= i < |commits| :: TaggedCommits(commits[i], Lower(Files[i].ext))
    {
      commits := [];
      forall i | 0 <= i < |Files| ensures IsAscii(Files[i].ext) {
        FilesAreAscii(i);
      }
      for i := 0 to |Files|
        invariant Valid() && domains == {}
        invariant badStart == old(badStart) && |commits| == i
        invariant i > 0 ==> currExt == ""
        invariant forall a | 0 <= a < i :: TaggedCommits(commits[a], Lower(Files[a].ext))
      {
        var zoneCommits;
        ghost var order, writes;
        zoneCommits, order, writes := RunZone(Files[i], inputs[i]);
        TaggedSnoc(commits, zoneCommits, i);
        commits := commits + [zoneCommits];
      }
      // remake_directory at the end of the script
      shards := map[];
      flushed := [];
      seen := {};
    }
  }
}
