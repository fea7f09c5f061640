/** Marking the context paragraphs in their PDF files: the chosen paragraphs are
    grouped by file, each paragraph's box becomes a rectangle drawn on its page,
    and each file comes back with its drawn document and its parse unchanged. */
module HighlightFile {
  import opened Seqs
  import opened FileTypes
  import opened RankingTypes

  datatype Point = Point(x: real, y: real)

  /** One closed polygon to draw on the page numbered `page`. */
  datatype Highlight = Highlight(page: nat, polygon: seq<Point>)

  /** The PDF renderer: draws the highlights into the document and writes it out. */
  type Annotator = (seq<byte>, seq<Highlight>) -> seq<byte>

  /** One entry of the grouping dictionary: a file and its chosen paragraphs. */
  datatype Group = Group(file: ParsedFile, paragraphs: seq<string>)

  function FilesOf(groups: seq<Group>): (r: seq<ParsedFile>)
    ensures |r| == |groups| && forall i :: 0 <= i < |groups| ==> r[i] == groups[i].file
  {
    seq(|groups|, i requires 0 <= i < |groups| => groups[i].file)
  }

  /** Where `file` sits among `files`: its first index, or `|files|` when absent. */
  function Position(files: seq<ParsedFile>, file: ParsedFile): (j: nat)
    ensures j <= |files| && (forall k :: 0 <= k < j ==> files[k] != file) && (j < |files| ==> files[j] == file)
  {
    if file in files then IndexOf(files, file) else |files|
  }

  /** The paragraphs stored under `file`, or none when it has no entry yet. */
  function Lookup(groups: seq<Group>, file: ParsedFile): seq<string>
  {
    var j := Position(FilesOf(groups), file);
    if j < |groups| then groups[j].paragraphs else []
  }

  /** `groups[file].append(paragraph)` on a dictionary that keeps insertion order. */
  function Append(groups: seq<Group>, file: ParsedFile, paragraph: string): seq<Group>
  {
    var j := Position(FilesOf(groups), file);
    if j < |groups| then groups[j := Group(file, groups[j].paragraphs + [paragraph])]
    else groups + [Group(file, [paragraph])]
  }

  /** The dictionary after all ranked paragraphs are appended under their files. */
  function Grouped(ranked: seq<RankedParagraph>): seq<Group>
  {
    if ranked == [] then [] else Append(Grouped(Init(ranked)), Last(ranked).file, Last(ranked).paragraph)
  }

  /** The paragraphs of `ranked` that belong to `file`, in ranked order. */
  function ParagraphsOf(ranked: seq<RankedParagraph>, file: ParsedFile): seq<string>
  {
    if ranked == [] then []
    else ParagraphsOf(Init(ranked), file) + (if Last(ranked).file == file then [Last(ranked).paragraph] else [])
  }

  /** The files of the ranked paragraphs, one per paragraph, in ranked order. */
  function RankedFiles(ranked: seq<RankedParagraph>): (r: seq<ParsedFile>)
    ensures |r| == |ranked| && forall i :: 0 <= i < |ranked| ==> r[i] == ranked[i].file
  {
    seq(|ranked|, i requires 0 <= i < |ranked| => ranked[i].file)
  }

  /** Where `file` is first seen among the ranked paragraphs. */
  function FirstSeen(ranked: seq<RankedParagraph>, file: ParsedFile): nat
  {
    Position(RankedFiles(ranked), file)
  }

  function FileSet(groups: seq<Group>): set<ParsedFile>
  {
    set g | g in groups :: g.file
  }

  /** Appending a key leaves the positions of the keys already present alone. */
  lemma PositionSnoc(files: seq<ParsedFile>, file: ParsedFile, f: ParsedFile)
    ensures Position(files + [file], f) == if f in files then Position(files, f) else if f == file then |files| else |files| + 1
  {
    var s := files + [file];
    var p := Position(s, f);
    if f in files {
      var q := Position(files, f);
      assert s[q] == f;
      assert p <= q;
    }
  }

  /** Appending updates exactly the entry of `file`, creating it at the end when it is new. */
  lemma AppendSpec(groups: seq<Group>, file: ParsedFile, paragraph: string)
    ensures forall f :: Lookup(Append(groups, file, paragraph), f) == Lookup(groups, f) + (if f == file then [paragraph] else [])
    ensures FileSet(Append(groups, file, paragraph)) == FileSet(groups) + {file}
    ensures Distinct(FilesOf(groups)) ==> Distinct(FilesOf(Append(groups, file, paragraph)))
    ensures Position(FilesOf(groups), file) < |groups| ==> FilesOf(Append(groups, file, paragraph)) == FilesOf(groups)
    ensures Position(FilesOf(groups), file) == |groups| ==> FilesOf(Append(groups, file, paragraph)) == FilesOf(groups) + [file]
  {
    if Position(FilesOf(groups), file) < |groups| {
      AppendToExistingKey(groups, file, paragraph);
    } else {
      AppendNewKey(groups, file, paragraph);
    }
  }

  lemma AppendToExistingKey(groups: seq<Group>, file: ParsedFile, paragraph: string)
    requires Position(FilesOf(groups), file) < |groups|
    ensures forall f :: Lookup(Append(groups, file, paragraph), f) == Lookup(groups, f) + (if f == file then [paragraph] else [])
    ensures FileSet(Append(groups, file, paragraph)) == FileSet(groups) + {file}
    ensures FilesOf(Append(groups, file, paragraph)) == FilesOf(groups)
  {
    var r := Append(groups, file, paragraph);
    var j := Position(FilesOf(groups), file);
    assert FilesOf(r) == FilesOf(groups);
    assert groups[j] in groups;
    forall f
      ensures Lookup(r, f) == Lookup(groups, f) + (if f == file then [paragraph] else [])
    {
    }
    assert FileSet(r) == FileSet(groups) by {
      forall g | g in r
        ensures g.file in FileSet(groups)
      {
        var k :| 0 <= k < |r| && r[k] == g;
        assert groups[k] in groups;
      }
      forall g | g in groups
        ensures g.file in FileSet(r)
      {
        var k :| 0 <= k < |groups| && groups[k] == g;
        assert r[k] in r;
      }
    }
  }

  lemma AppendNewKey(groups: seq<Group>, file: ParsedFile, paragraph: string)
    requires Position(FilesOf(groups), file) == |groups|
    ensures forall f :: Lookup(Append(groups, file, paragraph), f) == Lookup(groups, f) + (if f == file then [paragraph] else [])
    ensures FileSet(Append(groups, file, paragraph)) == FileSet(groups) + {file}
    ensures Distinct(FilesOf(groups)) ==> Distinct(FilesOf(Append(groups, file, paragraph)))
    ensures FilesOf(Append(groups, file, paragraph)) == FilesOf(groups) + [file]
  {
    var files := FilesOf(groups);
    var r := Append(groups, file, paragraph);
    assert file !in files;
    assert FilesOf(r) == files + [file];
    forall f
      ensures Lookup(r, f) == Lookup(groups, f) + (if f == file then [paragraph] else [])
    {
      PositionSnoc(files, file, f);
    }
    assert r[|groups|] in r;
  }

  /** In a dictionary with distinct keys every entry holds exactly what a lookup of its key returns. */
  lemma EntriesAreLookups(groups: seq<Group>)
    requires Distinct(FilesOf(groups))
    ensures forall i :: 0 <= i < |groups| ==> groups[i].paragraphs == Lookup(groups, groups[i].file)
  {
    forall i | 0 <= i < |groups|
      ensures Position(FilesOf(groups), groups[i].file) == i
    {
      var p := Position(FilesOf(groups), groups[i].file);
      assert FilesOf(groups)[i] == groups[i].file;
    }
  }

  lemma {:induction false} LookupIsParagraphsOf(ranked: seq<RankedParagraph>, f: ParsedFile)
    ensures Lookup(Grouped(ranked), f) == ParagraphsOf(ranked, f)
  {
    if ranked != [] {
      LookupIsParagraphsOf(Init(ranked), f);
      AppendSpec(Grouped(Init(ranked)), Last(ranked).file, Last(ranked).paragraph);
    }
  }

  /** The grouping's keys are distinct and are exactly the files of the ranked paragraphs. */
  lemma {:induction false} GroupedKeys(ranked: seq<RankedParagraph>)
    ensures Distinct(FilesOf(Grouped(ranked)))
    ensures FileSet(Grouped(ranked)) == set x | x in ranked :: x.file
  {
    if ranked != [] {
      var front := Init(ranked);
      GroupedKeys(front);
      AppendSpec(Grouped(front), Last(ranked).file, Last(ranked).paragraph);
      assert ranked == front + [Last(ranked)];
      assert (set x | x in ranked :: x.file) == (set x | x in front :: x.file) + {Last(ranked).file};
    }
  }

  /** A file already seen keeps where it was first seen when another paragraph follows. */
  lemma FirstSeenSnoc(front: seq<RankedParagraph>, x: RankedParagraph, f: ParsedFile)
    ensures f in RankedFiles(front) ==> FirstSeen(front + [x], f) == FirstSeen(front, f) < |front|
    ensures f !in RankedFiles(front) && f == x.file ==> FirstSeen(front + [x], f) == |front|
  {
    assert RankedFiles(front + [x]) == RankedFiles(front) + [x.file];
    PositionSnoc(RankedFiles(front), x.file, f);
  }

  /** Every key of the grouping was seen among the ranked paragraphs, and only they were. */
  lemma GroupedFilesSeen(ranked: seq<RankedParagraph>, f: ParsedFile)
    ensures f in FilesOf(Grouped(ranked)) <==> f in RankedFiles(ranked)
  {
    GroupedKeys(ranked);
    var g := Grouped(ranked);
    assert f in FilesOf(g) <==> f in FileSet(g) by {
      if f in FileSet(g) {
        var h :| h in g && h.file == f;
        var k :| 0 <= k < |g| && g[k] == h;
        assert FilesOf(g)[k] == f;
      }
      if f in FilesOf(g) {
        var k :| 0 <= k < |g| && FilesOf(g)[k] == f;
        assert g[k] in g;
      }
    }
    assert f in RankedFiles(ranked) <==> f in (set x | x in ranked :: x.file) by {
      if f in RankedFiles(ranked) {
        var m :| 0 <= m < |ranked| && RankedFiles(ranked)[m] == f;
        assert ranked[m] in ranked;
      }
      if f in (set x | x in ranked :: x.file) {
        var y :| y in ranked && y.file == f;
        var m :| 0 <= m < |ranked| && ranked[m] == y;
        assert RankedFiles(ranked)[m] == f;
      }
    }
  }

  /** `files` are listed in the order in which they are first seen among `ranked`. */
  ghost predicate InFirstSeenOrder(ranked: seq<RankedParagraph>, files: seq<ParsedFile>)
  {
    forall i, j :: 0 <= i < j < |files| ==> FirstSeen(ranked, files[i]) < FirstSeen(ranked, files[j])
  }

  /** One more ranked paragraph keeps the order of files already seen, and a file seen for
      the first time goes after all of them. */
  lemma FirstSeenOrderSnoc(front: seq<RankedParagraph>, x: RankedParagraph, files: seq<ParsedFile>)
    requires InFirstSeenOrder(front, files)
    requires forall k :: 0 <= k < |files| ==> files[k] in RankedFiles(front)
    ensures InFirstSeenOrder(front + [x], files)
    ensures x.file !in RankedFiles(front) ==> InFirstSeenOrder(front + [x], files + [x.file])
  {
    forall k | 0 <= k < |files|
      ensures FirstSeen(front + [x], files[k]) == FirstSeen(front, files[k]) < |front|
    {
      FirstSeenSnoc(front, x, files[k]);
    }
    FirstSeenSnoc(front, x, x.file);
  }

  /** The entries come in the order in which their files are first seen. */
  lemma {:induction false} GroupedInFirstSeenOrder(ranked: seq<RankedParagraph>)
    ensures InFirstSeenOrder(ranked, FilesOf(Grouped(ranked)))
  {
    if ranked != [] {
      var front := Init(ranked);
      var x := Last(ranked);
      var files := FilesOf(Grouped(front));
      assert ranked == front + [x];
      GroupedInFirstSeenOrder(front);
      AppendSpec(Grouped(front), x.file, x.paragraph);
      forall k | 0 <= k < |files|
        ensures files[k] in RankedFiles(front)
      {
        GroupedFilesSeen(front, files[k]);
      }
      GroupedFilesSeen(front, x.file);
      FirstSeenOrderSnoc(front, x, files);
    }
  }

  /** The grouping keeps one entry per file, in order of first appearance, holding exactly
      that file's paragraphs in ranked order, and loses and invents no file. */
  lemma GroupedSpec(ranked: seq<RankedParagraph>)
    ensures Distinct(FilesOf(Grouped(ranked)))
    ensures FileSet(Grouped(ranked)) == set x | x in ranked :: x.file
    ensures forall i :: 0 <= i < |Grouped(ranked)| ==> Grouped(ranked)[i].paragraphs == ParagraphsOf(ranked, Grouped(ranked)[i].file)
    ensures forall i, j :: 0 <= i < j < |Grouped(ranked)| ==>
      FirstSeen(ranked, Grouped(ranked)[i].file) < FirstSeen(ranked, Grouped(ranked)[j].file)
  {
    GroupedInFirstSeenOrder(ranked);
    assert forall i :: 0 <= i < |Grouped(ranked)| ==> FilesOf(Grouped(ranked))[i] == Grouped(ranked)[i].file;
    GroupedKeys(ranked);
    EntriesAreLookups(Grouped(ranked));
    forall i | 0 <= i < |Grouped(ranked)|
      ensures Grouped(ranked)[i].paragraphs == ParagraphsOf(ranked, Grouped(ranked)[i].file)
    {
      LookupIsParagraphsOf(ranked, Grouped(ranked)[i].file);
    }
  }

  lemma {:induction false} DistinctCardinality(files: seq<ParsedFile>)
    requires Distinct(files)
    ensures |set f | f in files| == |files|
  {
    if files != [] {
      var front := Init(files);
      assert Distinct(front);
      DistinctCardinality(front);
      assert files == front + [Last(files)];
      assert (set f | f in files) == (set f | f in front) + {Last(files)};
      assert Last(files) !in front;
    }
  }

  /** One group per distinct file among the ranked paragraphs. */
  lemma GroupCountIsDistinctFileCount(ranked: seq<RankedParagraph>)
    ensures |Grouped(ranked)| == |set x | x in ranked :: x.file|
  {
    GroupedSpec(ranked);
    var files := FilesOf(Grouped(ranked));
    DistinctCardinality(files);
    assert (set f | f in files) == FileSet(Grouped(ranked));
  }

  /** The dictionary's key lookup: the index of `file`'s entry, or `|groups|` when it has none. */
  method FindGroup(groups: seq<Group>, file: ParsedFile) returns (j: nat)
    ensures j == Position(FilesOf(groups), file)
  {
    j := 0;
    while j < |groups| && groups[j].file != file
      invariant 0 <= j <= |groups|
      invariant forall k :: 0 <= k < j ==> groups[k].file != file
    {
      j := j + 1;
    }
  }

  /** `_group_paragraphs_by_file`. */
  method GroupParagraphsByFile(ranked: seq<RankedParagraph>) returns (groups: seq<Group>)
    ensures groups == Grouped(ranked)
  {
    groups := [];
    for i := 0 to |ranked|
      invariant groups == Grouped(ranked[..i])
    {
      assert Init(ranked[..i + 1]) == ranked[..i];
      var x := ranked[i];
      var j := FindGroup(groups, x.file);
      if j < |groups| {
        groups := groups[j := Group(x.file, groups[j].paragraphs + [x.paragraph])];
      } else {
        groups := groups + [Group(x.file, [x.paragraph])];
      }
    }
    assert ranked[..|ranked|] == ranked;
  }

  /** A paragraph can be located when it occurs in the file and its first occurrence has a box. */
  predicate CanLocate(file: ParsedFile, paragraph: string)
  {
    paragraph in file.paragraphs && IndexOf(file.paragraphs, paragraph) < |file.coordinates|
  }

  /** The box of the first paragraph of `file` equal to `paragraph`. */
  function CoordinatesOf(file: ParsedFile, paragraph: string): (c: Coordinates)
    requires CanLocate(file, paragraph)
    ensures exists i :: (0 <= i < |file.paragraphs| && i < |file.coordinates| &&
      file.paragraphs[i] == paragraph && c == file.coordinates[i] &&
      forall j :: 0 <= j < i ==> file.paragraphs[j] != paragraph)
  {
    file.coordinates[IndexOf(file.paragraphs, paragraph)]
  }

  /** With distinct paragraphs each paragraph gets its own box. */
  lemma DistinctParagraphsGetTheirOwnBox(file: ParsedFile, i: nat)
    requires Distinct(file.paragraphs)
    requires i < |file.paragraphs| && |file.coordinates| == |file.paragraphs|
    ensures CanLocate(file, file.paragraphs[i]) && CoordinatesOf(file, file.paragraphs[i]) == file.coordinates[i]
  {
    var k := IndexOf(file.paragraphs, file.paragraphs[i]);
    assert k == i;
  }

  /** The box as a closed rectangle with sides parallel to the page axes, drawn from (x0, y0)
      to the opposite corner (x1, y1); every vertex is a corner of the box. */
  function Polygon(c: Coordinates): (r: seq<Point>)
    ensures |r| == 4 && r[0] == Point(c.x0, c.y0) && r[2] == Point(c.x1, c.y1)
    ensures r[0].y == r[1].y && r[1].x == r[2].x && r[2].y == r[3].y && r[3].x == r[0].x
    ensures forall p :: p in r ==> (p.x == c.x0 || p.x == c.x1) && (p.y == c.y0 || p.y == c.y1)
  {
    [Point(c.x0, c.y0), Point(c.x1, c.y0), Point(c.x1, c.y1), Point(c.x0, c.y1)]
  }

  function HighlightOf(file: ParsedFile, paragraph: string): (h: Highlight)
    requires CanLocate(file, paragraph)
    ensures h.page == CoordinatesOf(file, paragraph).page
  {
    var c := CoordinatesOf(file, paragraph);
    Highlight(c.page, Polygon(c))
  }

  function Highlights(file: ParsedFile, paragraphs: seq<string>): (r: seq<Highlight>)
    requires forall p :: p in paragraphs ==> CanLocate(file, p)
    ensures |r| == |paragraphs|
    ensures forall i :: 0 <= i < |r| ==> r[i] == HighlightOf(file, paragraphs[i])
  {
    seq(|paragraphs|, i requires 0 <= i < |paragraphs| => HighlightOf(file, paragraphs[i]))
  }

  /** `_highlight_paragraphs_in_file`: only the document changes; the parse is carried over. */
  function HighlightParagraphsInFile(file: ParsedFile, paragraphs: seq<string>, annotate: Annotator): (r: ParsedFile)
    requires forall p :: p in paragraphs ==> CanLocate(file, p)
    ensures r.name == file.name && r.paragraphs == file.paragraphs && r.coordinates == file.coordinates
    ensures r.value == annotate(file.value, Highlights(file, paragraphs))
  {
    ParsedFile(file.name, annotate(file.value, Highlights(file, paragraphs)), file.paragraphs, file.coordinates)
  }

  /** The highlighted copy of `file`, marking its paragraphs among `ranked`. */
  function HighlightedGroup(ranked: seq<RankedParagraph>, file: ParsedFile, annotate: Annotator): ParsedFile
    requires forall x :: x in ranked ==> CanLocate(x.file, x.paragraph)
  {
    ParagraphsOfLocatable(ranked, file);
    HighlightParagraphsInFile(file, ParagraphsOf(ranked, file), annotate)
  }

  lemma {:induction false} ParagraphsOfLocatable(ranked: seq<RankedParagraph>, f: ParsedFile)
    requires forall x :: x in ranked ==> CanLocate(x.file, x.paragraph)
    ensures forall p :: p in ParagraphsOf(ranked, f) ==> CanLocate(f, p)
  {
    if ranked != [] {
      assert Last(ranked) in ranked;
      assert forall x :: x in Init(ranked) ==> x in ranked;
      ParagraphsOfLocatable(Init(ranked), f);
    }
  }

  /** `highlight_paragraphs_in_files`: one highlighted copy per file among the chosen paragraphs,
      in order of first appearance, marking exactly that file's chosen paragraphs. */
  method HighlightParagraphsInFiles(ranked: seq<RankedParagraph>, annotate: Annotator) returns (files: seq<ParsedFile>)
    requires forall x :: x in ranked ==> CanLocate(x.file, x.paragraph)
    ensures |files| == |Grouped(ranked)| == |set x | x in ranked :: x.file|
    ensures forall i :: 0 <= i < |files| ==>
      Grouped(ranked)[i].file in (set x | x in ranked :: x.file) &&
      files[i] == HighlightedGroup(ranked, Grouped(ranked)[i].file, annotate)
    ensures forall i, j :: 0 <= i < j < |files| ==>
      FirstSeen(ranked, Grouped(ranked)[i].file) < FirstSeen(ranked, Grouped(ranked)[j].file)
  {
    var groups := GroupParagraphsByFile(ranked);
    GroupedSpec(ranked);
    GroupCountIsDistinctFileCount(ranked);
    files := seq(|groups|, i requires 0 <= i < |groups| => HighlightedGroup(ranked, groups[i].file, annotate));
    forall i | 0 <= i < |groups|
      ensures groups[i].file in (set x | x in ranked :: x.file)
    {
      assert groups[i] in groups;
      assert groups[i].file in FileSet(groups);
    }
  }
}
