/** `chunk_spreadsheet_text`, from the nonblank lines of each blank-line separated block. */
module Sheets {
  import opened Stores
  import opened Texts

  /** A chunk before its parts are joined by newlines. */
  datatype SheetChunk = SheetChunk(name: Option<string>, header: string, rows: seq<string>)

  function Parts(c: SheetChunk): seq<string> {
    (if c.name.Some? then ["sheet: " + c.name.value] else []) + [c.header] + c.rows
  }

  function ChunkText(c: SheetChunk): string {
    Join(Parts(c), "\n")
  }

  predicate LooksLikeRow(line: string) {
    '\t' in line || ',' in line || ';' in line
  }

  /** `_split_block`: an optional sheet name, then the rows. */
  function SplitBlock(lines: seq<string>): (Option<string>, seq<string>) {
    if |lines| > 1 && !LooksLikeRow(lines[0]) && LooksLikeRow(lines[1]) then (Some(Strip(lines[0])), lines[1..])
    else (None, lines)
  }

  /** An empty name counts as none, and the sheet's own name comes before the default. */
  function NameOf(own: Option<string>, byDefault: Option<string>): Option<string> {
    if own.Some? && own.value != "" then own
    else if byDefault.Some? && byDefault.value != "" then byDefault
    else None
  }

  /** The rows from `start` on in groups of `n`; a negative `n` makes the range empty. */
  function Groups(rows: seq<string>, n: int, start: nat): seq<seq<string>>
    requires n != 0
    decreases |rows| - start
  {
    if n < 0 || start >= |rows| then []
    else [rows[start..if start + n <= |rows| then start + n else |rows|]] + Groups(rows, n, start + n)
  }

  /** A lone header row still makes a chunk. */
  function BlockGroups(data: seq<string>, n: int): seq<seq<string>>
    requires n != 0 || data == []
  {
    if data == [] then [[]] else Groups(data, n, 0)
  }

  /** A block with data rows and a group size of zero raises. */
  predicate Raises(lines: seq<string>, n: int) {
    n == 0 && |SplitBlock(lines).1| > 1
  }

  function BlockChunks(lines: seq<string>, n: int, byDefault: Option<string>): seq<SheetChunk>
    requires !Raises(lines, n)
  {
    var (own, rows) := SplitBlock(lines);
    if rows == [] then []
    else
      var groups := BlockGroups(rows[1..], n);
      seq(|groups|, i requires 0 <= i < |groups| => SheetChunk(NameOf(own, byDefault), rows[0], groups[i]))
  }

  function ChunkTexts(chunks: seq<SheetChunk>): seq<string> {
    seq(|chunks|, i requires 0 <= i < |chunks| => ChunkText(chunks[i]))
  }

  function SheetTexts(blocks: seq<seq<string>>, n: int, byDefault: Option<string>): seq<string>
    requires forall b | b in blocks :: !Raises(b, n)
  {
    if blocks == [] then []
    else SheetTexts(blocks[..|blocks| - 1], n, byDefault) + ChunkTexts(BlockChunks(blocks[|blocks| - 1], n, byDefault))
  }

  /** `chunk_spreadsheet_text`; None stands for the range error. */
  method ChunkSpreadsheet(blocks: seq<seq<string>>, n: int, byDefault: Option<string>)
    returns (result: Option<seq<string>>)
    ensures result.None? <==> exists b :: b in blocks && Raises(b, n)
    ensures result.Some? ==> result.value == SheetTexts(blocks, n, byDefault)
  {
    var chunks: seq<string> := [];
    for i := 0 to |blocks|
      invariant forall b | b in blocks[..i] :: !Raises(b, n)
      invariant chunks == SheetTexts(blocks[..i], n, byDefault)
    {
      assert blocks[..i + 1][..i] == blocks[..i] && blocks[..i + 1] == blocks[..i] + [blocks[i]];
      var texts := BlockTexts(blocks[i], n, byDefault);
      if texts.None? { return None; }
      chunks := chunks + texts.value;
    }
    assert blocks[..|blocks|] == blocks;
    result := Some(chunks);
  }

  method BlockTexts(lines: seq<string>, n: int, byDefault: Option<string>) returns (result: Option<seq<string>>)
    ensures result.None? <==> Raises(lines, n)
    ensures result.Some? ==> result.value == ChunkTexts(BlockChunks(lines, n, byDefault))
  {
    var (own, rows) := SplitBlock(lines);
    if rows == [] { return Some([]); }
    if n == 0 && |rows| > 1 { return None; }
    var texts := GroupTexts(NameOf(own, byDefault), rows[0], BlockGroups(rows[1..], n));
    result := Some(texts);
  }

  /** The chunk texts of one block: the sheet's name, the header and a group of rows. */
  method GroupTexts(name: Option<string>, header: string, groups: seq<seq<string>>) returns (texts: seq<string>)
    ensures texts == seq(|groups|, i requires 0 <= i < |groups| => ChunkText(SheetChunk(name, header, groups[i])))
  {
    texts := [];
    for i := 0 to |groups|
      invariant texts == seq(i, j requires 0 <= j < i => ChunkText(SheetChunk(name, header, groups[j])))
    {
      var parts: seq<string> := [];
      if name.Some? { parts := parts + ["sheet: " + name.value]; }
      parts := parts + [header];
      parts := parts + groups[i];
      assert parts == Parts(SheetChunk(name, header, groups[i]));
      texts := texts + [Join(parts, "\n")];
    }
  }

  lemma {:induction false} GroupsKeep(rows: seq<string>, n: int, start: nat)
    requires n > 0 && start <= |rows|
    ensures Flat(Groups(rows, n, start)) == rows[start..]
    ensures forall g | g in Groups(rows, n, start) :: 0 < |g| <= n
    decreases |rows| - start
  {
    if start < |rows| {
      var next := if start + n <= |rows| then start + n else |rows|;
      GroupsKeep(rows, n, next);
      assert start + n > |rows| ==> Groups(rows, n, start + n) == Groups(rows, n, next);
      FlatAdds([rows[start..next]], Groups(rows, n, next));
      assert Flat([rows[start..next]]) == rows[start..next] by { assert [rows[start..next]][..0] == []; }
    }
  }

  /**
   The groups of a block's chunks are its data rows again, exactly if the group size is positive (or
   there are none): a negative size silently drops every data row.
   */
  lemma RowsKeptExactly(data: seq<string>, n: int)
    requires n != 0
    ensures Flat(BlockGroups(data, n)) == data <==> n > 0 || data == []
    ensures n > 0 ==> forall g | g in BlockGroups(data, n) :: |g| <= n
  {
    if data == [] {
      var none: seq<seq<string>> := [[]];
      assert none[..0] == [];
    } else if n > 0 {
      GroupsKeep(data, n, 0);
    }
  }

  /** The data rows of the chunks, one after the other. */
  function DataRows(chunks: seq<SheetChunk>): seq<string> {
    if chunks == [] then [] else DataRows(chunks[..|chunks| - 1]) + chunks[|chunks| - 1].rows
  }

  lemma {:induction false} DataRowsAre(name: Option<string>, header: string, groups: seq<seq<string>>)
    ensures DataRows(seq(|groups|, i requires 0 <= i < |groups| => SheetChunk(name, header, groups[i]))) == Flat(groups)
  {
    if groups != [] {
      var n := |groups| - 1;
      DataRowsAre(name, header, groups[..n]);
      var chunks := seq(|groups|, i requires 0 <= i < |groups| => SheetChunk(name, header, groups[i]));
      assert chunks[..n] == seq(n, i requires 0 <= i < n => SheetChunk(name, header, groups[..n][i]));
    }
  }

  /** A line with a tab, a comma or a semicolon in it. */
  predicate HasCells(line: string) {
    exists i | 0 <= i < |line| :: line[i] == '\t' || line[i] == ',' || line[i] == ';'
  }

  /**
   What the chunks of a block say. The first line is the sheet's name exactly if it has no cells and the
   second has some; the next line is the header, repeated in every chunk, and the lines behind it are
   the data, in order and `n` to a chunk; a block without data is one chunk. A name that strips to
   nothing gives way to the default, and an empty default to none.
   */
  lemma BlockReadsExactly(lines: seq<string>, n: nat, byDefault: Option<string>)
    requires n > 0 && lines != []
    ensures
      var named := |lines| > 1 && !HasCells(lines[0]) && HasCells(lines[1]);
      var header, data := lines[if named then 1 else 0], lines[if named then 2 else 1..];
      var name := if named && Strip(lines[0]) != "" then Some(Strip(lines[0]))
                  else if byDefault == Some("") then None else byDefault;
      var chunks := BlockChunks(lines, n, byDefault);
      && chunks != [] && DataRows(chunks) == data
      && (forall c | c in chunks :: c.header == header && c.name == name && |c.rows| <= n)
      && (data != [] ==> forall c | c in chunks :: c.rows != []) && (data == [] ==> |chunks| == 1)
  {
    SplitInWords(lines, byDefault);
    var (own, rows) := SplitBlock(lines);
    GroupsRead(NameOf(own, byDefault), rows[0], rows[1..], n);
  }

  lemma SplitInWords(lines: seq<string>, byDefault: Option<string>)
    requires lines != []
    ensures
      var named := |lines| > 1 && !HasCells(lines[0]) && HasCells(lines[1]);
      var (own, rows) := SplitBlock(lines);
      && rows != [] && rows[0] == lines[if named then 1 else 0] && rows[1..] == lines[if named then 2 else 1..]
      && NameOf(own, byDefault) == if named && Strip(lines[0]) != "" then Some(Strip(lines[0]))
                                   else if byDefault == Some("") then None else byDefault
  {
    assert forall line :: HasCells(line) <==> LooksLikeRow(line);
  }

  lemma GroupsRead(name: Option<string>, header: string, data: seq<string>, n: nat)
    requires n > 0
    ensures
      var groups := BlockGroups(data, n);
      var chunks := seq(|groups|, i requires 0 <= i < |groups| => SheetChunk(name, header, groups[i]));
      && chunks != [] && DataRows(chunks) == data
      && (forall c | c in chunks :: c.header == header && c.name == name && |c.rows| <= n)
      && (data != [] ==> forall c | c in chunks :: c.rows != []) && (data == [] ==> |chunks| == 1)
  {
    DataRowsAre(name, header, BlockGroups(data, n));
    RowsKeptExactly(data, n);
    if data != [] { GroupsKeep(data, n, 0); }
  }

  /** A group size of zero is an error exactly for a block with data: a line behind name and header. */
  lemma RaisesExactly(lines: seq<string>, n: int)
    ensures
      var named := |lines| > 1 && !HasCells(lines[0]) && HasCells(lines[1]);
      Raises(lines, n) <==> n == 0 && |lines| > if named then 2 else 1
  {
    assert forall line :: HasCells(line) <==> LooksLikeRow(line);
  }

  /** The chunks of the blocks, one block after the other. */
  lemma {:induction false} BlocksInOrder(blocks: seq<seq<string>>, n: int, byDefault: Option<string>)
    requires forall b | b in blocks :: !Raises(b, n)
    ensures
      SheetTexts(blocks, n, byDefault) ==
        Flat(seq(|blocks|, i requires 0 <= i < |blocks| => ChunkTexts(BlockChunks(blocks[i], n, byDefault))))
  {
    if blocks != [] {
      var k := |blocks| - 1;
      BlocksInOrder(blocks[..k], n, byDefault);
      var parts := seq(|blocks|, i requires 0 <= i < |blocks| => ChunkTexts(BlockChunks(blocks[i], n, byDefault)));
      assert parts[..k] == seq(k, i requires 0 <= i < k => ChunkTexts(BlockChunks(blocks[..k][i], n, byDefault)));
    }
  }

  /** From the chunk texts alone, a block's data rows can be read back, below the repeated header. */
  lemma ChunkTextSaysItsRows(c: SheetChunk)
    requires forall p | p in Parts(c) :: '\n' !in p
    ensures
      var skip := if c.name.Some? then 2 else 1;
      var lines := Split(ChunkText(c), '\n');
      && |lines| == skip + |c.rows| && lines[skip - 1] == c.header && lines[skip..] == c.rows
      && (c.name.Some? ==> lines[0] == "sheet: " + c.name.value)
  {
    SplitOfJoin(Parts(c), '\n');
  }
}
