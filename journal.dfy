/**
 * The journal store: `save_entry_to_file` prepends an entry's block to the
 * journal file with a read-then-overwrite of the whole file. The file
 * system is a class whose `files` map is the state the save reads and
 * replaces; which paths fail to read and how writes fail are fixed
 * properties of the store given when it is made.
 */
module Journal {
  import opened Wrappers
  import opened Text
  import opened Entry

  type Path = string

  /** The kind of `std::io::Error` a save returns; like the Rust error, it does not carry the path. */
  datatype IoError =
    | ReadFailed    // opening or reading an existing file failed
    | CreateFailed  // the file could not be created or truncated; nothing was written
    | WriteFailed   // the write stopped part-way, after truncation

  /** How writing to a path goes wrong, when it does. */
  datatype WriteFault =
    | CannotCreate              // opening for writing fails before anything is touched
    | SpaceFor(room: nat)       // only the first `room` characters can be stored

  /** The new journal text: the entry's block, a blank separator line, then everything already there. */
  function Prepend(block: string, existing: string): (full: string)
    ensures |full| == |block| + 1 + |existing|
    ensures block + "\n" <= full
    ensures full[|block| + 1..] == existing
  {
    block + "\n" + existing
  }

  /** What `save_entry_to_file` takes as the existing content: the file's text, or "" when there is no file. */
  function ExistingContent(files: map<Path, string>, path: Path): (s: string)
    ensures path in files ==> s == files[path]
    ensures path !in files ==> s == ""
  {
    if path in files then files[path] else ""
  }

  /** The whole text a save of `entry` to `path` writes over the store `files`. */
  function SavedText(files: map<Path, string>, path: Path, entry: CoffeeEntry): string {
    Prepend(ToPlaintext(entry), ExistingContent(files, path))
  }

  /** Whether writing `len` characters to `path` completes. */
  predicate WriteCompletes(faults: map<Path, WriteFault>, path: Path, len: nat) {
    path !in faults || (faults[path].SpaceFor? && len <= faults[path].room)
  }

  class FileStore {
    var files: map<Path, string>
    const unreadable: set<Path>
    const faults: map<Path, WriteFault>

    constructor (files: map<Path, string>, unreadable: set<Path>, faults: map<Path, WriteFault>)
      ensures this.files == files && this.unreadable == unreadable && this.faults == faults
    {
      this.files := files;
      this.unreadable := unreadable;
      this.faults := faults;
    }

    /** `Path::exists` */
    function Exists(path: Path): bool
      reads this
    {
      path in files
    }

    /**
     * `save_entry_to_file`: render the entry, read the existing text (none
     * when the file is missing), and overwrite the file with the block, a
     * separator '\n' and the old text. A read failure returns before any
     * write.
     */
    method SaveEntryToFile(entry: CoffeeEntry, path: Path) returns (r: Result<(), IoError>)
      modifies this
      // the outcome
      ensures r.Ok? <==>
        (!(path in old(files) && path in unreadable)
         && WriteCompletes(faults, path, |SavedText(old(files), path, entry)|))
      ensures r == Err(ReadFailed) <==> path in old(files) && path in unreadable
      // success: the new block on top of the untouched old content
      ensures r.Ok? ==> files == old(files)[path := SavedText(old(files), path, entry)]
      ensures r.Ok? ==> var block, previous := ToPlaintext(entry), ExistingContent(old(files), path);
        |files[path]| == |block| + 1 + |previous|
        && block + "\n" <= files[path] && files[path][|block| + 1..] == previous
      // failure: a failed read or create changes nothing; a failed write leaves a strict prefix
      ensures r.Err? && !r.error.WriteFailed? ==> files == old(files)
      ensures r.Err? && r.error.WriteFailed? ==>
        path in files && files == old(files)[path := files[path]]
        && files[path] < SavedText(old(files), path, entry)
    {
      var newContent := ToPlaintext(entry);

      var existingContent := "";
      if Exists(path) {
        if path in unreadable {
          return Err(ReadFailed);
        }
        var contents := "";
        contents := contents + files[path];
        assert contents == files[path];
        existingContent := contents;
      }

      var fullContent := Prepend(newContent, existingContent);
      assert fullContent == SavedText(files, path, entry);
      if path in faults {
        match faults[path]
        case CannotCreate =>
          return Err(CreateFailed);
        case SpaceFor(room) =>
          if room < |fullContent| {
            assert fullContent[..room] < fullContent;
            files := files[path := fullContent[..room]];
            return Err(WriteFailed);
          }
      }
      files := files[path := fullContent];
      r := Ok(());
    }
  }

  /**
   * Read line by line, a save puts the entry's nine lines on top, then one
   * empty line, then the old journal's lines unchanged.
   */
  lemma PrependLines(e: CoffeeEntry, existing: string)
    requires SingleLineFields(e)
    ensures Lines(Prepend(ToPlaintext(e), existing)) == EntryLines(e) + [""] + Lines(existing)
  {
    PlaintextEnds(e);
    PlaintextLines(e);
    LinesAroundBlank(ToPlaintext(e), existing);
  }

  /**
   * The journal text after successful saves whose rendered blocks are
   * `blocks`, oldest first, starting from the text `base` (empty when the
   * journal did not exist).
   */
  function Stack(base: string, blocks: seq<string>): (j: string)
    ensures |j| >= |base|
  {
    if blocks == [] then base
    else Prepend(blocks[|blocks| - 1], Stack(base, blocks[..|blocks| - 1]))
  }

  /** The blocks a sequence of saved entries writes, in saving order. */
  function Rendered(saved: seq<CoffeeEntry>): (blocks: seq<string>)
    ensures |blocks| == |saved|
    ensures forall k :: 0 <= k < |saved| ==> blocks[k] == ToPlaintext(saved[k])
  {
    seq(|saved|, k requires 0 <= k < |saved| => ToPlaintext(saved[k]))
  }

  /** Where block `i` starts in `Stack(base, blocks)`: after every newer block and its separator. */
  function BlockStart(blocks: seq<string>, i: nat): nat
    requires i < |blocks|
  {
    if i == |blocks| - 1 then 0
    else |blocks[|blocks| - 1]| + 1 + BlockStart(blocks[..|blocks| - 1], i)
  }

  /** A first save to a missing file starts the journal with that entry's block. */
  lemma SaveStartsJournal(files: map<Path, string>, path: Path, e: CoffeeEntry)
    requires path !in files
    ensures SavedText(files, path, e) == ToPlaintext(e) + "\n"
    ensures SavedText(files, path, e) == Stack("", Rendered([e]))
  {
    assert Rendered([e])[..0] == [];
    assert ToPlaintext(e) + "\n" + "" == ToPlaintext(e) + "\n";
  }

  /**
   * A save to a file holding the journal of `saved` over `base` leaves the
   * journal of `saved` followed by `e`, over the same `base`.
   */
  lemma SaveExtendsJournal(files: map<Path, string>, path: Path, base: string,
                           saved: seq<CoffeeEntry>, e: CoffeeEntry)
    requires path in files && files[path] == Stack(base, Rendered(saved))
    ensures SavedText(files, path, e) == Stack(base, Rendered(saved + [e]))
  {
    var blocks, block := Rendered(saved), ToPlaintext(e);
    calc {
      SavedText(files, path, e);
      Prepend(block, Stack(base, blocks));
      { StackSnoc(base, blocks, block); }
      Stack(base, blocks + [block]);
      { RenderedSnoc(saved, e); }
      Stack(base, Rendered(saved + [e]));
    }
  }

  /** Saving one more entry appends its block to the rendered blocks. */
  lemma RenderedSnoc(saved: seq<CoffeeEntry>, e: CoffeeEntry)
    ensures Rendered(saved + [e]) == Rendered(saved) + [ToPlaintext(e)]
  {
    var r, q := Rendered(saved + [e]), Rendered(saved) + [ToPlaintext(e)];
    assert |r| == |q|;
    forall k | 0 <= k < |r| ensures r[k] == q[k] {
      if k < |saved| {
        assert (saved + [e])[k] == saved[k];
      }
    }
  }

  /** One more save puts the new block on top of the journal so far. */
  lemma StackSnoc(base: string, blocks: seq<string>, block: string)
    ensures Stack(base, blocks + [block]) == Prepend(block, Stack(base, blocks))
  {
    assert (blocks + [block])[..|blocks|] == blocks;
  }

  /** The text successive saves put above the journal's starting text: newest block first, each with its separator. */
  function Above(blocks: seq<string>): string {
    if blocks == [] then []
    else blocks[|blocks| - 1] + "\n" + Above(blocks[..|blocks| - 1])
  }

  /**
   * The text the journal started from is never altered: the journal is the
   * saved blocks followed by that text, which stays intact at the end.
   */
  lemma {:induction false} StackKeepsBase(base: string, blocks: seq<string>)
    ensures Stack(base, blocks) == Above(blocks) + base
    ensures var j := Stack(base, blocks); |base| <= |j| && j[|j| - |base|..] == base
  {
    if blocks != [] {
      var init, top := blocks[..|blocks| - 1], blocks[|blocks| - 1];
      StackKeepsBase(base, init);
      calc {
        Stack(base, blocks);
        top + "\n" + Stack(base, init);
        top + "\n" + (Above(init) + base);
        Above(blocks) + base;
      }
    }
    var a := Above(blocks);
    assert (a + base)[|a|..] == base;
  }

  /** Every saved block sits, intact, at its start offset, followed by a separator '\n'. */
  lemma {:induction false} StackBlock(base: string, blocks: seq<string>, i: nat)
    requires i < |blocks|
    ensures var j, k := Stack(base, blocks), BlockStart(blocks, i);
      k <= |j| && blocks[i] + "\n" <= j[k..]
    decreases |blocks|
  {
    var init, top := blocks[..|blocks| - 1], blocks[|blocks| - 1];
    var rest := Stack(base, init);
    var j := Stack(base, blocks);
    assert j == Prepend(top, rest);
    if i < |blocks| - 1 {
      StackBlock(base, init, i);
      var k := BlockStart(init, i);
      assert blocks[i] == init[i];
      assert BlockStart(blocks, i) == |top| + 1 + k;
      assert j[|top| + 1 + k..] == rest[k..];
    } else {
      assert j[0..] == j;
    }
  }

  /** A later save's block lies wholly before the block of every earlier save. */
  lemma {:induction false} NewerBlockFirst(blocks: seq<string>, i: nat, k: nat)
    requires i < k < |blocks|
    ensures BlockStart(blocks, k) + |blocks[k]| < BlockStart(blocks, i)
    decreases |blocks|
  {
    var init := blocks[..|blocks| - 1];
    if k < |blocks| - 1 {
      NewerBlockFirst(init, i, k);
      assert blocks[k] == init[k];
    }
  }

  /** The lines of a journal whose blocks each end in '\n': newest block's lines, a blank line, and so on. */
  function StackLines(blocks: seq<string>): seq<string>
  {
    if blocks == [] then []
    else Lines(blocks[|blocks| - 1]) + [""] + StackLines(blocks[..|blocks| - 1])
  }

  /**
   * Read line by line, the journal is each block's lines from newest to
   * oldest, each followed by one empty line, then the starting text's lines.
   */
  lemma {:induction false} StackLinesAreNewestFirst(base: string, blocks: seq<string>)
    requires forall k :: 0 <= k < |blocks| ==> |blocks[k]| > 0 && blocks[k][|blocks[k]| - 1] == '\n'
    ensures Lines(Stack(base, blocks)) == StackLines(blocks) + Lines(base)
  {
    if blocks != [] {
      var init, top := blocks[..|blocks| - 1], blocks[|blocks| - 1];
      assert forall k :: 0 <= k < |init| ==> init[k] == blocks[k];
      calc {
        Lines(Stack(base, blocks));
        Lines(top + "\n" + Stack(base, init));
        { LinesAroundBlank(top, Stack(base, init)); }
        Lines(top) + [""] + Lines(Stack(base, init));
        { StackLinesAreNewestFirst(base, init); }
        Lines(top) + [""] + (StackLines(init) + Lines(base));
        StackLines(blocks) + Lines(base);
      }
    }
  }

  /**
   * Saving two entries, with blocks `first` and then `second`, over a
   * journal whose text was `base`: the second block, a separator, the
   * first block, a separator, then `base`.
   */
  lemma SaveTwice(base: string, first: string, second: string)
    ensures Stack(base, [first, second]) == second + "\n" + (first + "\n" + base)
  {
    assert [first, second][..1] == [first];
    assert [first][..0] == [];
    assert Stack(base, [first]) == Prepend(first, base);
  }

  /**
   * Two saves to a path of an empty store that never fails: both succeed,
   * and the file holds the second entry's block first, then the first's,
   * each followed by the separator '\n'.
   */
  method SaveTwiceToNewFile(first: CoffeeEntry, second: CoffeeEntry, path: Path)
    returns (ok: bool, text: string)
    ensures ok
    ensures text == ToPlaintext(second) + "\n" + (ToPlaintext(first) + "\n")
  {
    var blockA, blockB := ToPlaintext(first), ToPlaintext(second);
    var store := new FileStore(map[], {}, map[]);
    var r1 := store.SaveEntryToFile(first, path);
    assert r1.Ok? && store.files[path] == Prepend(blockA, "");
    var r2 := store.SaveEntryToFile(second, path);
    assert r2.Ok? && store.files[path] == Prepend(blockB, Prepend(blockA, ""));
    ok := r1.Ok? && r2.Ok?;
    text := store.files[path];
    assert Prepend(blockA, "") == blockA + "\n";
  }

  /** Groups of lines joined newest (last) first, each group followed by one empty line. */
  function NewestFirst(groups: seq<seq<string>>): seq<string> {
    if groups == [] then []
    else groups[|groups| - 1] + [""] + NewestFirst(groups[..|groups| - 1])
  }

  /** The nine labelled lines of each saved entry, in saving order. */
  function EntryLineGroups(saved: seq<CoffeeEntry>): (groups: seq<seq<string>>)
    ensures |groups| == |saved|
    ensures forall k :: 0 <= k < |saved| ==> groups[k] == EntryLines(saved[k])
  {
    seq(|saved|, k requires 0 <= k < |saved| => EntryLines(saved[k]))
  }

  /** When each block reads back as its group of lines, the stacked blocks read back group by group. */
  lemma {:induction false} StackLinesOfGroups(blocks: seq<string>, groups: seq<seq<string>>)
    requires |blocks| == |groups|
    requires forall k :: 0 <= k < |blocks| ==> Lines(blocks[k]) == groups[k]
    ensures StackLines(blocks) == NewestFirst(groups)
  {
    if blocks != [] {
      var n := |blocks| - 1;
      assert forall k :: 0 <= k < n ==> blocks[..n][k] == blocks[k] && groups[..n][k] == groups[k];
      StackLinesOfGroups(blocks[..n], groups[..n]);
    }
  }

  /**
   * After saving the entries of `saved` in order over a journal whose text
   * was `base`, reading the journal line by line gives every entry's nine
   * labelled lines, newest first, each entry followed by an empty line, and
   * then the lines of `base`.
   */
  lemma JournalLines(base: string, saved: seq<CoffeeEntry>)
    requires forall k :: 0 <= k < |saved| ==> SingleLineFields(saved[k])
    ensures Lines(Stack(base, Rendered(saved))) == NewestFirst(EntryLineGroups(saved)) + Lines(base)
  {
    var blocks, groups := Rendered(saved), EntryLineGroups(saved);
    forall k | 0 <= k < |blocks|
      ensures |blocks[k]| > 0 && blocks[k][|blocks[k]| - 1] == '\n'
      ensures Lines(blocks[k]) == groups[k]
    {
      PlaintextEnds(saved[k]);
      PlaintextLines(saved[k]);
    }
    StackLinesAreNewestFirst(base, blocks);
    StackLinesOfGroups(blocks, groups);
  }
}
