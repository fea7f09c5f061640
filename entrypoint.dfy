/** The glue of the question-answering page that is not user interface:
    joining the context, trimming a generated answer, merging uploaded and
    remembered files, and choosing which uploaded file to display. */
module Entrypoint {
  import opened Wrappers
  import opened Seqs
  import opened FileTypes
  import opened RankingTypes

  /** `"\n".join(lines)`. */
  function JoinLines(lines: seq<string>): string
  {
    if lines == [] then ""
    else if |lines| == 1 then lines[0]
    else JoinLines(Init(lines)) + "\n" + Last(lines)
  }

  /** `s.split("\n")`: the pieces between line breaks; always at least one. */
  function SplitLines(s: string): (r: seq<string>)
    ensures |r| >= 1
  {
    if s == [] then [""]
    else if Last(s) == '\n' then SplitLines(Init(s)) + [""]
    else
      var front := SplitLines(Init(s));
      Init(front) + [Last(front) + [Last(s)]]
  }

  function ParagraphTexts(context: seq<RankedParagraph>): (r: seq<string>)
    ensures |r| == |context| && forall i :: 0 <= i < |context| ==> r[i] == context[i].paragraph
  {
    seq(|context|, i requires 0 <= i < |context| => context[i].paragraph)
  }

  /** `build_context`: the chosen paragraphs, one per line, in context order. */
  function BuildContext(context: seq<RankedParagraph>): (s: string)
    ensures context == [] ==> s == ""
    ensures |context| == 1 ==> s == context[0].paragraph
  {
    JoinLines(ParagraphTexts(context))
  }

  /** A character that is not a line break extends the last piece. */
  lemma SplitSnocChar(s: string, c: char)
    requires c != '\n'
    ensures SplitLines(s + [c]) == Init(SplitLines(s)) + [Last(SplitLines(s)) + [c]]
  {
    assert Init(s + [c]) == s && Last(s + [c]) == c;
  }

  lemma {:induction false} SplitAppendsToLastLine(s: string, t: string)
    requires '\n' !in t
    ensures SplitLines(s + t) == Init(SplitLines(s)) + [Last(SplitLines(s)) + t]
  {
    var g := SplitLines(s);
    if t == [] {
      assert s + t == s;
      assert Last(g) + t == Last(g);
      assert g == Init(g) + [Last(g)];
    } else {
      var front, c := Init(t), Last(t);
      assert c in t;
      SplitAppendsToLastLine(s, front);
      assert s + t == (s + front) + [c] by {
        assert t == front + [c];
      }
      SplitSnocChar(s + front, c);
      var f := SplitLines(s + front);
      assert Init(f) == Init(g) && Last(f) == Last(g) + front;
      assert Last(g) + front + [c] == Last(g) + t;
    }
  }

  /** After the joined front lines, a line break opens a new piece, which the last line fills. */
  lemma SplitAfterBreak(front: seq<string>, last: string)
    requires |front| >= 1 && SplitLines(JoinLines(front)) == front
    requires '\n' !in last
    ensures SplitLines(JoinLines(front) + "\n" + last) == front + [last]
  {
    var broken := JoinLines(front) + "\n";
    assert Last(broken) == '\n' && Init(broken) == JoinLines(front);
    assert SplitLines(broken) == front + [""];
    SplitAppendsToLastLine(broken, last);
    assert "" + last == last;
  }

  /** Joining lines that hold no line break and splitting again gives the lines back. */
  lemma {:induction false} SplitUndoesJoin(lines: seq<string>)
    requires |lines| >= 1
    requires forall i :: 0 <= i < |lines| ==> '\n' !in lines[i]
    ensures SplitLines(JoinLines(lines)) == lines
  {
    if |lines| == 1 {
      SplitAppendsToLastLine("", lines[0]);
      assert "" + lines[0] == lines[0];
    } else {
      var front := Init(lines);
      SplitUndoesJoin(front);
      SplitAfterBreak(front, Last(lines));
      assert lines == front + [Last(lines)];
    }
  }

  /** The context can be cut back into its paragraphs when none of them holds a line break,
      which the PDF parser guarantees. */
  lemma ContextSplitsBackIntoParagraphs(context: seq<RankedParagraph>)
    requires |context| >= 1
    requires forall i :: 0 <= i < |context| ==> '\n' !in context[i].paragraph
    ensures SplitLines(BuildContext(context)) == ParagraphTexts(context)
  {
    SplitUndoesJoin(ParagraphTexts(context));
  }

  /** `trim_stop_sequences`: cut the first stop sequence, in list order, that ends `s`; at most one cut. */
  function TrimStopSequences(s: string, stops: seq<string>): (r: string)
    ensures r <= s
  {
    if stops == [] then s
    else if EndsWith(s, stops[0]) then DropLast(s, |stops[0]|)
    else TrimStopSequences(s, stops[1..])
  }

  /** Nothing to cut: the text comes back unchanged. */
  lemma {:induction false} NoMatchKeepsText(s: string, stops: seq<string>)
    requires forall i :: 0 <= i < |stops| ==> !EndsWith(s, stops[i])
    ensures TrimStopSequences(s, stops) == s
  {
    if stops != [] {
      NoMatchKeepsText(s, stops[1..]);
    }
  }

  /** The first matching stop sequence is cut once, and the result is exactly `s` without it;
      an empty stop sequence, which matches everything, leaves nothing (`s[:-0]`). */
  lemma {:induction false} FirstMatchIsCutOnce(s: string, stops: seq<string>, i: nat)
    requires i < |stops| && EndsWith(s, stops[i])
    requires forall k :: 0 <= k < i ==> !EndsWith(s, stops[k])
    ensures stops[i] != [] ==> TrimStopSequences(s, stops) + stops[i] == s
    ensures stops[i] == [] ==> TrimStopSequences(s, stops) == []
  {
    if i > 0 {
      FirstMatchIsCutOnce(s, stops[1..], i - 1);
    }
  }

  /** A doubled stop sequence loses only its last copy. */
  lemma DoubledStopLosesOneCopy()
    ensures TrimStopSequences("ok\n\n", ["\n"]) == "ok\n"
  {
    assert EndsWith("ok\n\n", "\n") by {
      assert "ok\n\n"[3..] == "\n";
    }
    assert "ok\n\n"[..3] == "ok\n";
  }

  /** Remembered files whose names were not uploaded now, in their order. */
  function NotUploaded(memorized: seq<File>, uploadedNames: seq<string>): seq<File>
  {
    if memorized == [] then []
    else
      var f := Last(memorized);
      NotUploaded(Init(memorized), uploadedNames) + (if f.name !in uploadedNames then [f] else [])
  }

  /** The filter keeps exactly the remembered files whose names were not uploaded. */
  lemma {:induction false} NotUploadedMembers(memorized: seq<File>, uploadedNames: seq<string>)
    ensures forall f :: f in NotUploaded(memorized, uploadedNames) <==> f in memorized && f.name !in uploadedNames
  {
    if memorized != [] {
      NotUploadedMembers(Init(memorized), uploadedNames);
      assert memorized == Init(memorized) + [Last(memorized)];
    }
  }

  lemma NotUploadedSnoc(s: seq<File>, f: File, uploadedNames: seq<string>)
    ensures NotUploaded(s + [f], uploadedNames) == NotUploaded(s, uploadedNames) + (if f.name !in uploadedNames then [f] else [])
  {
    assert Init(s + [f]) == s;
  }

  /** The filter keeps the remembered order: it works piece by piece, keeping or
      dropping each file on its own (see `NotUploadedOfOne`). */
  lemma {:induction false} NotUploadedKeepsOrder(a: seq<File>, b: seq<File>, uploadedNames: seq<string>)
    ensures NotUploaded(a + b, uploadedNames) == NotUploaded(a, uploadedNames) + NotUploaded(b, uploadedNames)
  {
    if b == [] {
      assert a + b == a;
    } else {
      var front := Init(b);
      var f := Last(b);
      NotUploadedKeepsOrder(a, front, uploadedNames);
      assert b == front + [f];
      assert a + b == (a + front) + [f];
      NotUploadedSnoc(a + front, f, uploadedNames);
      NotUploadedSnoc(front, f, uploadedNames);
    }
  }

  /** A single remembered file is kept exactly when its name was not uploaded. */
  lemma NotUploadedOfOne(f: File, uploadedNames: seq<string>)
    ensures NotUploaded([f], uploadedNames) == if f.name in uploadedNames then [] else [f]
  {
    assert Init([f]) == [];
  }

  /** The files to work on: the uploads first, then the remembered files not uploaded again,
      in their remembered order. */
  function MergeRawFiles(uploaded: seq<File>, memorized: seq<File>): (r: seq<File>)
    ensures |uploaded| <= |r| && r[..|uploaded|] == uploaded
    ensures forall f :: f in r[|uploaded|..] <==> f in memorized && f.name !in Names(uploaded)
    ensures r[|uploaded|..] == NotUploaded(memorized, Names(uploaded))
  {
    NotUploadedMembers(memorized, Names(uploaded));
    var r := uploaded + NotUploaded(memorized, Names(uploaded));
    assert r[|uploaded|..] == NotUploaded(memorized, Names(uploaded));
    r
  }

  lemma {:induction false} NotUploadedKeepsDistinctNames(memorized: seq<File>, uploadedNames: seq<string>)
    requires Distinct(Names(memorized))
    ensures Distinct(Names(NotUploaded(memorized, uploadedNames)))
  {
    if memorized != [] {
      var front := Init(memorized);
      var f := Last(memorized);
      assert Distinct(Names(front)) by {
        assert forall i :: 0 <= i < |front| ==> Names(front)[i] == Names(memorized)[i];
      }
      NotUploadedKeepsDistinctNames(front, uploadedNames);
      NotUploadedMembers(front, uploadedNames);
      var tail := NotUploaded(front, uploadedNames);
      if f.name !in uploadedNames {
        forall g | g in tail
          ensures g.name != f.name
        {
          var k :| 0 <= k < |front| && front[k] == g;
          assert Names(memorized)[k] != Names(memorized)[|memorized| - 1];
        }
        var r := tail + [f];
        forall a, b | 0 <= a < b < |r|
          ensures Names(r)[a] != Names(r)[b]
        {
          if b == |r| - 1 {
            assert r[a] in tail;
          } else {
            assert Names(tail)[a] != Names(tail)[b];
          }
        }
      } else {
        assert NotUploaded(memorized, uploadedNames) == tail + [];
      }
    }
  }

  /** Names stay unique when both lists have unique names: a remembered file never
      duplicates an upload. */
  lemma MergeKeepsNamesDistinct(uploaded: seq<File>, memorized: seq<File>)
    requires Distinct(Names(uploaded)) && Distinct(Names(memorized))
    ensures Distinct(Names(MergeRawFiles(uploaded, memorized)))
  {
    var tail := NotUploaded(memorized, Names(uploaded));
    NotUploadedKeepsDistinctNames(memorized, Names(uploaded));
    NotUploadedMembers(memorized, Names(uploaded));
    var r := uploaded + tail;
    forall a, b | 0 <= a < b < |r|
      ensures Names(r)[a] != Names(r)[b]
    {
      if a < |uploaded| && b >= |uploaded| {
        assert r[b] in tail;
        assert Names(uploaded)[a] == r[a].name;
      } else if a >= |uploaded| {
        assert Names(tail)[a - |uploaded|] != Names(tail)[b - |uploaded|];
      } else {
        assert Names(uploaded)[a] != Names(uploaded)[b];
      }
    }
  }

  /** Every file name of either list is present after the merge. */
  lemma MergeLosesNoName(uploaded: seq<File>, memorized: seq<File>, name: string)
    requires name in Names(uploaded) || name in Names(memorized)
    ensures name in Names(MergeRawFiles(uploaded, memorized))
  {
    var r := MergeRawFiles(uploaded, memorized);
    if name in Names(uploaded) {
      var k :| 0 <= k < |uploaded| && Names(uploaded)[k] == name;
      assert Names(r)[k] == name;
    } else {
      var k :| 0 <= k < |memorized| && Names(memorized)[k] == name;
      assert memorized[k] in r[|uploaded|..];
      var j :| |uploaded| <= j < |r| && r[j] == memorized[k];
      assert Names(r)[j] == name;
    }
  }

  /** Which uploaded file to display: the one holding the best-ranked paragraph, when it was uploaded now. */
  function DisplayIndex(uploadedNames: seq<string>, ranked: seq<RankedParagraph>): (r: Option<nat>)
    requires |ranked| > 0
    ensures r.None? <==> Last(ranked).file.name !in uploadedNames
    ensures r.Some? ==> r.value < |uploadedNames| && uploadedNames[r.value] == Last(ranked).file.name &&
                        forall j :: 0 <= j < r.value ==> uploadedNames[j] != Last(ranked).file.name
  {
    var name := Last(ranked).file.name;
    if name in uploadedNames then Some(IndexOf(uploadedNames, name)) else None
  }
}
