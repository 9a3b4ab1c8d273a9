/** Publishing a text file as a frame, and reading the frame back. */
module FrameFiles {
  import opened Params
  import opened Arith
  import opened Messages
  import opened Wire
  import opened Layout
  import opened Frames
  import opened LineReaders
  import opened SorText
  import opened SorGuess
  import opened SorParsers

  /** What a file stands for: the guessed types, and a row for each line. */
  function RowsOfFile(atof: string -> FloatBits, content: string): (rows: seq<Row>)
    ensures |rows| == |Lines(content)| && Rectangular(GuessedTypes(content), rows)
  {
    GuessedTypesKnown(content);
    FileRows(atof, GuessedTypes(content), Lines(content))
  }

  /** The file has a field among its first lines, and no line stops the parser. */
  predicate Parses(content: string) {
    GuessedWidth(content) > 0 && LinesOk(GuessedTypes(content), Lines(content))
  }

  lemma {:induction false} LinesAreShorter(s: string)
    ensures |Lines(s)| <= |s| && forall l <- Lines(s) :: |l| <= |s|
    decreases |s|
  {
    hide LineEnd;
    if s != [] {
      LinesAreShorter(AfterLine(s));
    }
  }

  lemma {:induction false} FieldsAreFewer(lines: seq<string>, n: nat)
    requires forall l <- lines :: |l| <= n
    ensures MaxFields(AllFields(lines)) <= n
  {
    hide Fields;
    if lines != [] {
      var before := lines[..|lines| - 1];
      FieldsAreFewer(before, n);
      assert AllFields(lines)[..|lines| - 1] == AllFields(before);
    }
  }

  lemma FileFits(atof: string -> FloatBits, content: string)
    requires |content| + 1 < SIZE_LIMIT
    ensures FrameFits(GuessedTypes(content), RowsOfFile(atof, content))
    ensures KnownTypes(GuessedTypes(content))
  {
    hide Lines, FileRows, FrameFits, LineFields, AllFields, MaxFields, GuessedTypes;
    LinesAreShorter(content);
    GuessedTypesKnown(content);
    FieldsAreFewer(FirstLines(Lines(content), GUESS_SCHEMA_LINES), |content|);
    FileRowsFit(atof, GuessedTypes(content), Lines(content));
  }

  /** The lines parsed into one set of columns are the rows of one chunk. */
  lemma FileChunk(atof: string -> FloatBits, types: seq<char>, all: seq<string>, c: nat)
    requires KnownTypes(types) && Rows(c) <= |all|
    ensures var part := FirstLines(all[Rows(c)..], CHUNK_SIZE);
            && Rows(c) + |part| == Min(Rows(c + 1), |all|)
            && FileRows(atof, types, part) == ChunkRows(FileRows(atof, types, all), c)
            && all[Rows(c)..][|part|..] == all[Rows(c) + |part|..]
            && (forall i | 0 <= i < |part| :: part[i] == all[Rows(c) + i])
            && (CHUNK_SIZE <= |all[Rows(c)..]| <==> Rows(c + 1) <= |all|)
  {
    hide Rows, RowOf, LineFields;
    RowsAdd(c, 1);
    RowsIs(1);
    var part := FirstLines(all[Rows(c)..], CHUNK_SIZE);
    var rows := FileRows(atof, types, all);
    assert |ChunkRows(rows, c)| == |part|;
    forall i | 0 <= i < |part| ensures FileRows(atof, types, part)[i] == ChunkRows(rows, c)[i] {
      assert ChunkRows(rows, c)[i] == rows[Rows(c) + i];
    }
  }

  lemma LastChunk(n: nat, c: nat)
    requires Rows(c) <= n < Rows(c + 1)
    ensures c == n / CHUNK_SIZE && NumChunks(n) <= c + 1
  {
    hide Rows, ChunkOf, PosOf, NumChunks;
    ChunkOfIs(n);
    SlotParts(n);
    SlotBelow(n, c);
    SlotBelow(n, c + 1);
    NumChunksCovers(n, 0);
  }

  lemma OkSoFar(types: seq<char>, all: seq<string>, c: nat, part: seq<string>)
    requires Rows(c) <= |all| && part == FirstLines(all[Rows(c)..], CHUNK_SIZE)
    requires LinesOk(types, all[..Rows(c)])
    ensures LinesOk(types, part) <==> LinesOk(types, all[..Rows(c) + |part|])
    ensures !LinesOk(types, part) ==> !LinesOk(types, all)
  {
    hide Rows, LineOk, LineFields;
    var lo, hi := Rows(c), Rows(c) + |part|;
    if LinesOk(types, part) {
      forall i | 0 <= i < hi ensures LineOk(types, LineFields(all[..hi][i])) {
        assert i < lo ==> all[..lo][i] == all[i];
        assert i >= lo ==> part[i - lo] == all[i];
      }
    } else {
      var i :| 0 <= i < |part| && !LineOk(types, LineFields(part[i]));
      assert part[i] == all[lo + i] == all[..hi][lo + i];
    }
  }

  /** What chunk `c` of a file is, once the lines before it have been read. */
  lemma ChunkOfFile(atof: string -> FloatBits, content: string, c: nat, part: seq<string>)
    requires Rows(c) <= |Lines(content)| && part == FirstLines(Lines(content)[Rows(c)..], CHUNK_SIZE)
    ensures KnownTypes(GuessedTypes(content))
    ensures var types, rows, all := GuessedTypes(content), RowsOfFile(atof, content), Lines(content);
            && FileRows(atof, types, part) == ChunkRows(rows, c) && Rectangular(types, ChunkRows(rows, c))
            && Rows(c) + |part| <= |all|
            && all[Rows(c)..][|part|..] == all[Rows(c) + |part|..]
            && (if CHUNK_SIZE <= |all[Rows(c)..]| then |part| == CHUNK_SIZE && Rows(c + 1) == Rows(c) + |part|
                else Rows(c) + |part| == |all| && c == |all| / CHUNK_SIZE && NumChunks(|all|) <= c + 1)
  {
    hide Rows, Lines, GuessedTypes, FileRows, NumChunks, LinesOk;
    var all := Lines(content);
    GuessedTypesKnown(content);
    FileChunk(atof, GuessedTypes(content), all, c);
    RowsAdd(c, 1);
    RowsIs(1);
    if |all| < Rows(c + 1) {
      LastChunk(|all|, c);
    }
  }

  /** Parses and stores full chunks; the rows of the last, partial one stay in the columns. */
  method LoadFullChunks(sor: SorParser, k: Key, kv: Stores, ghost content: string) returns (ok: bool, chunk: nat)
    requires sor.Valid() && sor.reader.LinesLeft() == Lines(content)
    requires FrameFits(GuessedTypes(content), RowsOfFile(sor.atof, content)) && KnownTypes(GuessedTypes(content))
    requires sor.columns == EmptyColumns(GuessedTypes(content)) && sor.numColumns == |GuessedTypes(content)|
    requires KnownTypes(sor.typeGuesses)
    modifies kv, sor, sor.reader, sor.reader.file, sor.reader.buf
    ensures ok <==> LinesOk(GuessedTypes(content), Lines(content))
    ensures ok ==>
              var types, rows := GuessedTypes(content), RowsOfFile(sor.atof, content);
              && chunk == |rows| / CHUNK_SIZE && NumChunks(|rows|) <= chunk + 1
              && Rows(chunk) <= |rows| && Rows(chunk) + |ChunkRows(rows, chunk)| == |rows|
              && Rectangular(types, ChunkRows(rows, chunk)) && sor.columns == ColumnsOf(types, ChunkRows(rows, chunk))
              && kv.log == old(kv.log) + ChunkPuts(k, types, rows, chunk)
              && kv.entries == Stored(old(kv.entries), ChunkPuts(k, types, rows, chunk))
  {
    hide *;
    ghost var types, rows, all := GuessedTypes(content), RowsOfFile(sor.atof, content), Lines(content);
    chunk := 0;
    ghost var height: nat := 0;
    PutsStart(k, types, rows, kv.entries);
    NothingLoaded(types, all);
    assert kv.log + [] == kv.log;
    while true
      invariant sor.Valid() && KnownTypes(types) && KnownTypes(sor.typeGuesses)
      invariant sor.columns == EmptyColumns(types) && sor.numColumns == |types|
      invariant height == Rows(chunk) <= |all| && sor.reader.LinesLeft() == all[height..]
      invariant LinesOk(types, all[..height])
      invariant kv.log == old(kv.log) + ChunkPuts(k, types, rows, chunk)
      invariant kv.entries == Stored(old(kv.entries), ChunkPuts(k, types, rows, chunk))
      decreases |all| - height
    {
      ghost var part := FirstLines(all[height..], CHUNK_SIZE);
      ChunkOfFile(sor.atof, content, chunk, part);
      OkSoFar(types, all, chunk, part);
      ghost var before := kv.entries;
      var full := sor.ParseFile(types);
      if full.None? {
        return false, chunk;
      }
      if !full.value {
        assert all[..height + |part|] == all;
        return true, chunk;
      }
      PutsStep(k, types, rows, old(kv.entries), chunk);
      sor.columns := DistributeColumns(sor.columns, chunk, k, kv, types, rows);
      assert kv.log == old(kv.log) + (ChunkPuts(k, types, rows, chunk) + ColumnPuts(k, types, rows, chunk, |types|));
      height := height + |part|;
      chunk := chunk + 1;
    }
  }

  lemma NothingLoaded(types: seq<char>, all: seq<string>)
    ensures Rows(0) == 0 && all[0..] == all && LinesOk(types, all[..0])
  {
  }

  /** All that publishing a file puts into the stores. */
  function FilePublication(atof: string -> FloatBits, k: Key, content: string): seq<(Key, Blob)>
    requires FrameFits(GuessedTypes(content), RowsOfFile(atof, content))
  {
    Publication(k, GuessedTypes(content), RowsOfFile(atof, content), StoredChunks(|Lines(content)|))
  }

  ghost predicate HoldsFile(entries: map<Key, Blob>, atof: string -> FloatBits, k: Key, content: string)
    requires FrameFits(GuessedTypes(content), RowsOfFile(atof, content))
  {
    Holds(entries, k, GuessedTypes(content), RowsOfFile(atof, content))
  }

  /** A frame of the file that has yet to load its first chunk. */
  ghost predicate OpensFile(df: DataFrame, k: Key, content: string)
    reads df
  {
    && df.types == GuessedTypes(content) && df.key == k && df.height == |Lines(content)|
    && df.cols == EmptyColumns(df.types) && df.chunkIndex == seq(|df.types|, _ => 0) && df.mustLoad
  }

  /**
   Publishes a file: the schema is guessed first, then every chunk of lines is
   parsed and stored. The chunk after the last full one is always stored, even
   if it holds no row. Fails when a line stops the parser.
   */
  method FromFile(file: File, bufferSize: nat, atof: string -> FloatBits, k: Key, kv: Stores, me: nat)
    returns (df: DataFrame?)
    requires file.Valid() && bufferSize > 0 && |file.content| + 1 < SIZE_LIMIT
    modifies file, kv
    ensures df != null <==> Parses(file.content)
    ensures FrameFits(GuessedTypes(file.content), RowsOfFile(atof, file.content))
    ensures df != null ==> kv.log == old(kv.log) + FilePublication(atof, k, file.content)
    ensures df != null ==> kv.entries == Stored(old(kv.entries), FilePublication(atof, k, file.content))
    ensures df != null ==> HoldsFile(kv.entries, atof, k, file.content)
    ensures df != null ==> fresh(df) && df.me == me && OpensFile(df, k, file.content)
  {
    hide *;
    ghost var content := file.content;
    var sor := new SorParser(file, bufferSize, atof);
    FileFits(atof, content);
    var guess := sor.GuessSchema();
    ParsesMeans(content);
    if guess.None? {
      return null;
    }
    var types := guess.value;
    ghost var rows := RowsOfFile(atof, content);
    var ok, chunk := LoadFullChunks(sor, k, kv, content);
    if !ok {
      return null;
    }
    FirstColumn(types, rows, chunk);
    var height := chunk * CHUNK_SIZE + |sor.columns[0].cells|;
    PutsStep(k, types, rows, old(kv.entries), chunk);
    PutsEnd(k, types, rows, old(kv.entries), chunk + 1);
    var _ := DistributeColumns(sor.columns, chunk, k, kv, types, rows);
    assert kv.log == old(kv.log) + (ChunkPuts(k, types, rows, chunk) + ColumnPuts(k, types, rows, chunk, |types|));
    PutSchema(k, kv, types, height);
    assert kv.log == old(kv.log) + (ChunkPuts(k, types, rows, chunk + 1) + [SchemaPut(k, types, |rows|)]);
    df := new DataFrame(types, me);
    df.SetDistributedSchema(k, height);
    df.mustLoad := true;
    Published(atof, k, content, df, kv.entries, chunk + 1);
  }

  lemma Published(atof: string -> FloatBits, k: Key, content: string, df: DataFrame, entries: map<Key, Blob>, m: nat)
    requires FrameFits(GuessedTypes(content), RowsOfFile(atof, content)) && m == |Lines(content)| / CHUNK_SIZE + 1
    ensures FilePublication(atof, k, content) == Publication(k, GuessedTypes(content), RowsOfFile(atof, content), m)
    ensures HoldsFile(entries, atof, k, content) <==> Holds(entries, k, GuessedTypes(content), RowsOfFile(atof, content))
    ensures df.types == GuessedTypes(content) && df.key == k && df.height == |Lines(content)| &&
            df.cols == EmptyColumns(df.types) && df.chunkIndex == seq(|df.types|, _ => 0) && df.mustLoad
            ==> OpensFile(df, k, content)
  {
    hide Lines, GuessedTypes, RowsOfFile, Publication, Holds, FrameFits;
  }

  lemma ParsesMeans(content: string)
    ensures Parses(content) <==> GuessedWidth(content) > 0 && LinesOk(GuessedTypes(content), Lines(content))
    ensures |GuessedTypes(content)| == GuessedWidth(content)
  {
  }

  lemma FirstColumn(types: seq<char>, rows: seq<Row>, c: nat)
    requires types != [] && Rectangular(types, ChunkRows(rows, c))
    ensures |ColumnsOf(types, ChunkRows(rows, c))| == |types|
    ensures |ColumnsOf(types, ChunkRows(rows, c))[0].cells| == |ChunkRows(rows, c)|
    ensures Rows(c) == c * CHUNK_SIZE
  {
    RowsIs(c);
  }

  /** A published file reads back, on any node, as one row per line in order. */
  method LoadThenMap(file: File, bufferSize: nat, atof: string -> FloatBits, k: Key, kv: Stores, writer: nat, reader: nat)
    returns (visits: Option<seq<(nat, Row)>>)
    requires file.Valid() && bufferSize > 0 && |file.content| + 1 < SIZE_LIMIT
    modifies file, kv
    ensures visits.Some? <==> Parses(file.content)
    ensures visits.Some? ==>
              var rows := RowsOfFile(atof, file.content);
              visits.value == seq(|rows|, i requires 0 <= i < |rows| => (i, rows[i]))
  {
    hide FrameFits, Holds, Publication, NumChunks, Stored, RowsOfFile, Parses, GuessedTypes;
    var df := FromFile(file, bufferSize, atof, k, kv, writer);
    if df == null {
      return None;
    }
    ghost var rows := RowsOfFile(atof, file.content);
    FileFits(atof, file.content);
    var copy := new DataFrame.FromStore(k, kv, reader, rows, GuessedTypes(file.content));
    var all := copy.DistributedMap(kv, rows);
    visits := Some(all);
  }
}
