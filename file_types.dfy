/** The immutable file records and the file-format suffix tests. */
module FileTypes {
  import opened Seqs

  newtype byte = x: int | 0 <= x < 256

  /** An uploaded document: its name (the session key) and its raw bytes. */
  datatype File = File(name: string, value: seq<byte>)

  /** A paragraph's bounding box and the zero-based index of its page; the page is the last component. */
  datatype Coordinates = Coordinates(x0: real, y0: real, x1: real, y1: real, page: nat)

  /** A file together with its paragraphs and, index by index, their coordinates. */
  datatype ParsedFile = ParsedFile(name: string, value: seq<byte>, paragraphs: seq<string>, coordinates: seq<Coordinates>)

  function Names(files: seq<File>): (names: seq<string>)
    ensures |names| == |files|
    ensures forall i :: 0 <= i < |files| ==> names[i] == files[i].name
  {
    if files == [] then [] else Names(Init(files)) + [Last(files).name]
  }

  lemma NamesSnoc(files: seq<File>, file: File)
    ensures Names(files + [file]) == Names(files) + [file.name]
  {
    assert Init(files + [file]) == files;
  }

  /** `Names` for parsed files: a parsed file is not a `File` value here, so it needs its own projection. */
  function ParsedNames(files: seq<ParsedFile>): (names: seq<string>)
    ensures |names| == |files|
    ensures forall i :: 0 <= i < |files| ==> names[i] == files[i].name
  {
    if files == [] then [] else ParsedNames(Init(files)) + [Last(files).name]
  }

  datatype FileFormat = PDF | DOCX | TXT
  {
    function Value(): string
    {
      match this
      case PDF => "pdf"
      case DOCX => "docx"
      case TXT => "txt"
    }

    /** The extension with its leading dot. */
    function Dotted(): (s: string)
      ensures |s| == |Value()| + 1 && s[0] == '.' && s[1..] == Value()
    {
      "." + Value()
    }
  }

  predicate IsPdf(filename: string)
  {
    EndsWith(filename, PDF.Dotted())
  }

  predicate IsDocx(filename: string)
  {
    EndsWith(filename, DOCX.Dotted())
  }

  predicate IsTxt(filename: string)
  {
    EndsWith(filename, TXT.Dotted())
  }

  /** The suffix tests compare the last characters with the dotted extension, case included. */
  lemma SuffixTestsSpelledOut(filename: string)
    ensures IsPdf(filename) <==> |filename| >= 4 && filename[|filename| - 4..] == ".pdf"
    ensures IsDocx(filename) <==> |filename| >= 5 && filename[|filename| - 5..] == ".docx"
    ensures IsTxt(filename) <==> |filename| >= 4 && filename[|filename| - 4..] == ".txt"
    ensures PDF.Dotted() == ".pdf" && DOCX.Dotted() == ".docx" && TXT.Dotted() == ".txt"
  {
    assert PDF.Dotted() == ".pdf" && |PDF.Dotted()| == 4;
    assert DOCX.Dotted() == ".docx" && |DOCX.Dotted()| == 5;
    assert TXT.Dotted() == ".txt" && |TXT.Dotted()| == 4;
  }

  /** No name passes two of the suffix tests. */
  lemma FormatsAreExclusive(filename: string)
    ensures !(IsPdf(filename) && IsDocx(filename))
    ensures !(IsPdf(filename) && IsTxt(filename))
    ensures !(IsDocx(filename) && IsTxt(filename))
  {
    var n := |filename|;
    if IsPdf(filename) {
      assert filename[n - 4] == '.' && filename[n - 3] == 'p';
      if n >= 5 {
        assert filename[n - 5..][1] == '.';
      }
    }
    if IsDocx(filename) {
      assert filename[n - 4] == 'd';
    }
  }

  /** Edge cases of the PDF test: the bare extension is a PDF; a missing dot or upper case is not. */
  lemma PdfSuffixEdgeCases()
    ensures IsPdf(".pdf")
    ensures IsPdf("report.pdf")
    ensures !IsPdf("reportpdf")
    ensures !IsPdf("report.PDF")
  {
    assert "report.pdf"[6..] == ".pdf";
    assert "reportpdf"[5..] != ".pdf" by { assert "reportpdf"[5] == 't'; }
    assert "report.PDF"[6..] != ".pdf" by { assert "report.PDF"[7] == 'P'; }
  }
}
