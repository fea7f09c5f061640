/** Turning an uploaded file into paragraphs with coordinates. The PDF reader
    is a parameter: it gives, page by page, the text-extraction blocks. */
module ParseFile {
  import opened Wrappers
  import opened Seqs
  import opened FileTypes

  /** One extraction block: bounding box, text, block number and block type (0 for text). */
  datatype Block = Block(x0: real, y0: real, x1: real, y1: real, text: string, blockNo: int, blockType: int)

  type Page = seq<Block>

  /** Opening a document's bytes and listing each page's blocks. */
  type PdfReader = seq<byte> -> seq<Page>

  datatype ParseError = NotImplemented(format: FileFormat)

  const TextBlockType := 0

  /** The value of `previous_block_id`: it is set once and never reassigned. */
  const PreviousBlockId := 0

  predicate IsKept(block: Block)
  {
    block.blockType == TextBlockType && PreviousBlockId != block.blockNo
  }

  /** Because the previous block id never changes, the block-number test drops exactly the blocks numbered 0. */
  lemma KeptIffTextAndNonzeroNumber(block: Block)
    ensures IsKept(block) <==> block.blockType == 0 && block.blockNo != 0
  {
  }

  /** `text.replace('\n', ' ')`. */
  function ReplaceNewlines(text: string): (r: string)
    ensures |r| == |text|
    ensures forall i :: 0 <= i < |text| ==> r[i] == (if text[i] == '\n' then ' ' else text[i])
    ensures '\n' !in r
  {
    if text == "" then ""
    else ReplaceNewlines(Init(text)) + [if Last(text) == '\n' then ' ' else Last(text)]
  }

  function Extract(block: Block, page: nat): (string, Coordinates)
  {
    (ReplaceNewlines(block.text), Coordinates(block.x0, block.y0, block.x1, block.y1, page))
  }

  /** The paragraph data of one page, in block order. */
  function PageParagraphData(blocks: seq<Block>, page: nat): seq<(string, Coordinates)>
  {
    if blocks == [] then []
    else PageParagraphData(Init(blocks), page) + (if IsKept(Last(blocks)) then [Extract(Last(blocks), page)] else [])
  }

  /** The paragraph data of a document: pages in order, each page's blocks in order. */
  function ParagraphData(pages: seq<Page>): seq<(string, Coordinates)>
  {
    if pages == [] then []
    else ParagraphData(Init(pages)) + PageParagraphData(Last(pages), |pages| - 1)
  }

  /** The indices of the kept blocks of a page, in increasing order. */
  function KeptIndices(blocks: seq<Block>): (idx: seq<nat>)
    ensures forall i :: 0 <= i < |idx| ==> idx[i] < |blocks| && IsKept(blocks[idx[i]])
    ensures forall i, j :: 0 <= i < j < |idx| ==> idx[i] < idx[j]
    ensures forall k :: 0 <= k < |blocks| && IsKept(blocks[k]) ==> k in idx
  {
    if blocks == [] then []
    else KeptIndices(Init(blocks)) + (if IsKept(Last(blocks)) then [|blocks| - 1] else [])
  }

  /** A page yields exactly its kept blocks, each once and in block order: entry `i`
      is the extraction of the `i`-th kept block. */
  lemma {:induction false} PageDataFromKeptBlocks(blocks: seq<Block>, page: nat)
    ensures |PageParagraphData(blocks, page)| == |KeptIndices(blocks)|
    ensures forall i :: 0 <= i < |KeptIndices(blocks)| ==>
      PageParagraphData(blocks, page)[i] == Extract(blocks[KeptIndices(blocks)[i]], page)
  {
    if blocks != [] {
      PageDataFromKeptBlocks(Init(blocks), page);
    }
  }

  /** Position `a` comes before position `b` in reading order: an earlier page, or an earlier block on the same page. */
  predicate Before(a: (nat, nat), b: (nat, nat))
  {
    a.0 < b.0 || (a.0 == b.0 && a.1 < b.1)
  }

  /** The blocks `idx` of page `p` as (page, block) positions. */
  function OnPage(p: nat, idx: seq<nat>): (pos: seq<(nat, nat)>)
    ensures |pos| == |idx| && forall i :: 0 <= i < |idx| ==> pos[i] == (p, idx[i])
  {
    seq(|idx|, i requires 0 <= i < |idx| => (p, idx[i]))
  }

  /** The kept blocks of a document as (page, block) positions, in reading order. */
  function KeptPositions(pages: seq<Page>): seq<(nat, nat)>
  {
    if pages == [] then [] else KeptPositions(Init(pages)) + OnPage(|pages| - 1, KeptIndices(Last(pages)))
  }

  /** Every position names a kept block of the document. */
  ghost predicate OnlyKept(pages: seq<Page>, pos: seq<(nat, nat)>)
  {
    forall i :: 0 <= i < |pos| ==> pos[i].0 < |pages| && pos[i].1 < |pages[pos[i].0]| && IsKept(pages[pos[i].0][pos[i].1])
  }

  ghost predicate InReadingOrder(pos: seq<(nat, nat)>)
  {
    forall i, j :: 0 <= i < j < |pos| ==> Before(pos[i], pos[j])
  }

  /** Every kept block of the document has a position. */
  ghost predicate EveryKept(pages: seq<Page>, pos: seq<(nat, nat)>)
  {
    forall p, k :: 0 <= p < |pages| && 0 <= k < |pages[p]| && IsKept(pages[p][k]) ==> (p, k) in pos
  }

  lemma OnlyKeptStep(pages: seq<Page>)
    requires pages != [] && OnlyKept(Init(pages), KeptPositions(Init(pages)))
    ensures OnlyKept(pages, KeptPositions(pages))
  {
    assert forall p :: 0 <= p < |pages| - 1 ==> pages[p] == Init(pages)[p];
  }

  lemma InReadingOrderStep(pages: seq<Page>)
    requires pages != [] && OnlyKept(Init(pages), KeptPositions(Init(pages))) && InReadingOrder(KeptPositions(Init(pages)))
    ensures InReadingOrder(KeptPositions(pages))
  {
  }

  lemma EveryKeptStep(pages: seq<Page>)
    requires pages != [] && EveryKept(Init(pages), KeptPositions(Init(pages)))
    ensures EveryKept(pages, KeptPositions(pages))
  {
    var front := KeptPositions(Init(pages));
    var own := OnPage(|pages| - 1, KeptIndices(Last(pages)));
    forall p, k | 0 <= p < |pages| && 0 <= k < |pages[p]| && IsKept(pages[p][k])
      ensures (p, k) in front + own
    {
      if p < |pages| - 1 {
        assert pages[p] == Init(pages)[p];
        assert (p, k) in front;
      } else {
        var i :| 0 <= i < |KeptIndices(Last(pages))| && KeptIndices(Last(pages))[i] == k;
        assert own[i] == (p, k);
      }
    }
  }

  /** The positions are exactly the kept blocks of the document, in reading order. */
  lemma {:induction false} KeptPositionsSpec(pages: seq<Page>)
    ensures OnlyKept(pages, KeptPositions(pages))
    ensures InReadingOrder(KeptPositions(pages))
    ensures EveryKept(pages, KeptPositions(pages))
  {
    if pages != [] {
      KeptPositionsSpec(Init(pages));
      OnlyKeptStep(pages);
      InReadingOrderStep(pages);
      EveryKeptStep(pages);
    }
  }

  /** A document yields exactly its kept blocks, each once and in reading order (pages in
      order, blocks in order within a page): entry `i` is the extraction of the `i`-th kept
      block, on its page's zero-based index. */
  lemma {:induction false} ParagraphDataFromKeptBlocks(pages: seq<Page>)
    ensures OnlyKept(pages, KeptPositions(pages)) && InReadingOrder(KeptPositions(pages)) && EveryKept(pages, KeptPositions(pages))
    ensures |ParagraphData(pages)| == |KeptPositions(pages)|
    ensures forall i :: 0 <= i < |KeptPositions(pages)| ==>
      ParagraphData(pages)[i] == Extract(pages[KeptPositions(pages)[i].0][KeptPositions(pages)[i].1], KeptPositions(pages)[i].0)
  {
    KeptPositionsSpec(pages);
    if pages != [] {
      ParagraphDataFromKeptBlocks(Init(pages));
      PageDataFromKeptBlocks(Last(pages), |pages| - 1);
      var pos := KeptPositions(pages);
      var front := KeptPositions(Init(pages));
      forall i | 0 <= i < |pos|
        ensures ParagraphData(pages)[i] == Extract(pages[pos[i].0][pos[i].1], pos[i].0)
      {
        if i < |front| {
          assert pages[pos[i].0] == Init(pages)[pos[i].0];
        }
      }
    }
  }

  lemma {:induction false} PageDataOnItsPage(blocks: seq<Block>, page: nat)
    ensures forall i :: 0 <= i < |PageParagraphData(blocks, page)| ==> PageParagraphData(blocks, page)[i].1.page == page
  {
    if blocks != [] {
      PageDataOnItsPage(Init(blocks), page);
    }
  }

  /** Paragraphs come in page order and carry a page index within the document. */
  lemma {:induction false} ParagraphDataInPageOrder(pages: seq<Page>)
    ensures forall i :: 0 <= i < |ParagraphData(pages)| ==> ParagraphData(pages)[i].1.page < |pages|
    ensures forall i, j :: 0 <= i < j < |ParagraphData(pages)| ==>
      ParagraphData(pages)[i].1.page <= ParagraphData(pages)[j].1.page
  {
    if pages != [] {
      ParagraphDataInPageOrder(Init(pages));
      PageDataOnItsPage(Last(pages), |pages| - 1);
    }
  }

  /** A page whose blocks are all kept yields one paragraph per block, in block order. */
  lemma {:induction false} AllKeptPageKeepsEveryBlock(blocks: seq<Block>, page: nat)
    requires forall k :: 0 <= k < |blocks| ==> IsKept(blocks[k])
    ensures |PageParagraphData(blocks, page)| == |blocks|
    ensures forall k :: 0 <= k < |blocks| ==> PageParagraphData(blocks, page)[k] == Extract(blocks[k], page)
  {
    if blocks != [] {
      AllKeptPageKeepsEveryBlock(Init(blocks), page);
    }
  }

  /** A page whose text blocks are all numbered 0 yields nothing. */
  lemma {:induction false} BlocksNumberedZeroAreDropped(blocks: seq<Block>, page: nat)
    requires forall k :: 0 <= k < |blocks| ==> blocks[k].blockNo == 0
    ensures PageParagraphData(blocks, page) == []
  {
    if blocks != [] {
      BlocksNumberedZeroAreDropped(Init(blocks), page);
    }
  }

  function ParsePdf(file: File, read: PdfReader): (parsed: ParsedFile)
    ensures parsed.name == file.name && parsed.value == file.value
    ensures |parsed.paragraphs| == |parsed.coordinates| == |ParagraphData(read(file.value))|
    ensures forall i :: 0 <= i < |parsed.paragraphs| ==>
      (parsed.paragraphs[i], parsed.coordinates[i]) == ParagraphData(read(file.value))[i]
  {
    var data := ParagraphData(read(file.value));
    var paragraphs := seq(|data|, i requires 0 <= i < |data| => data[i].0);
    var coordinates := seq(|data|, i requires 0 <= i < |data| => data[i].1);
    ParsedFile(file.name, file.value, paragraphs, coordinates)
  }

  /** Parsed paragraphs contain no newline. */
  lemma ParsedParagraphsHaveNoNewline(file: File, read: PdfReader)
    ensures forall i :: 0 <= i < |ParsePdf(file, read).paragraphs| ==> '\n' !in ParsePdf(file, read).paragraphs[i]
  {
    ParagraphDataFromKeptBlocks(read(file.value));
  }

  function ParseFile(file: File, read: PdfReader): (r: Result<ParsedFile, ParseError>)
    ensures r.Ok? <==> IsPdf(file.name)
    ensures r.Ok? ==> r.value == ParsePdf(file, read)
    ensures r.Err? ==> r.error == NotImplemented(if IsDocx(file.name) then DOCX else TXT)
  {
    if IsPdf(file.name) then Ok(ParsePdf(file, read))
    else if IsDocx(file.name) then Err(NotImplemented(DOCX))
    else Err(NotImplemented(TXT))
  }

  /** Parses every file in order; the first file that cannot be parsed aborts with its error. */
  function ParseFiles(files: seq<File>, read: PdfReader): (r: Result<seq<ParsedFile>, ParseError>)
    ensures r.Ok? <==> forall i :: 0 <= i < |files| ==> IsPdf(files[i].name)
    ensures r.Ok? ==> (|r.value| == |files| &&
                       forall i :: 0 <= i < |files| ==> r.value[i] == ParsePdf(files[i], read))
  {
    if files == [] then Ok([])
    else
      match ParseFile(files[0], read)
      case Err(e) => Err(e)
      case Ok(parsed) =>
        match ParseFiles(files[1..], read)
        case Err(e) => Err(e)
        case Ok(rest) => Ok([parsed] + rest)
  }

  /** A failed parse reports the error of the first file that is not a PDF. */
  lemma {:induction false} ParseFilesStopsAtFirstFailure(files: seq<File>, read: PdfReader)
    requires ParseFiles(files, read).Err?
    ensures exists i :: (0 <= i < |files| && !IsPdf(files[i].name) &&
      (forall j :: 0 <= j < i ==> IsPdf(files[j].name)) && ParseFile(files[i], read) == Err(ParseFiles(files, read).error))
  {
    if IsPdf(files[0].name) {
      ParseFilesStopsAtFirstFailure(files[1..], read);
      var i :| 0 <= i < |files[1..]| && !IsPdf(files[1..][i].name) &&
        (forall j :: 0 <= j < i ==> IsPdf(files[1..][j].name)) &&
        ParseFile(files[1..][i], read) == Err(ParseFiles(files[1..], read).error);
      assert forall j :: 0 < j <= i ==> files[j] == files[1..][j - 1];
      assert !IsPdf(files[i + 1].name);
    } else {
      assert !IsPdf(files[0].name);
    }
  }
}
