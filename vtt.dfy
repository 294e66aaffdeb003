/**
 * `write_vtt` (generate_vtt.py:55-68): Whisper's segments serialised as a WebVTT file.
 * `Written` is the text the loop leaves in the file, one segment at a time; `Document`
 * describes the same text from the segments that survive the blank-text filter, and
 * `WrittenIsDocument` proves the two agree. `WriteVtt` is the loop itself.
 */
module Vtt {
  import opened Strings
  import opened Timestamp
  import opened Seqs

  /** One element of Whisper's `result["segments"]`, with its offsets in milliseconds. */
  datatype Segment = Segment(start: nat, end: nat, text: string)

  /** The file signature and the blank line after it. */
  const Header: string := "WEBVTT\n\n"

  /** A segment becomes a cue unless its stripped text is empty (`if not text: continue`). */
  predicate HasText(seg: Segment) {
    Strip(seg.text) != []
  }

  /** The cue block written for one segment: its timing line, its stripped text, a blank line. */
  function CueBlock(seg: Segment): string {
    Format(seg.start) + " --> " + Format(seg.end) + "\n" + Strip(seg.text) + "\n\n"
  }

  /** A cue block is the timing line followed by the text line and the blank line. */
  lemma CueBlockLines(seg: Segment)
    ensures CueBlock(seg)
         == (Format(seg.start) + " --> " + Format(seg.end) + "\n") + (Strip(seg.text) + "\n\n")
  {
  }

  lemma AppendAssoc(a: string, b: string, c: string)
    ensures a + b + c == a + (b + c)
  {
  }

  /** The segments that become cues, in their order. */
  function Kept(segs: seq<Segment>): seq<Segment> {
    Filter(segs, HasText)
  }

  /** The text of the file `write_vtt(segments, path)` writes: the header, then one cue block per
      segment with text, in input order. */
  function Document(segs: seq<Segment>): string {
    Header + Flatten(Kept(segs), CueBlock)
  }

  /** What one segment adds to the file: its cue block, or nothing when its text is blank. */
  function Block(seg: Segment): string {
    if HasText(seg) then CueBlock(seg) else ""
  }

  /** The file after the loop of `write_vtt` has gone through `segs`. */
  function Written(segs: seq<Segment>): string {
    if segs == [] then Header else Written(segs[..|segs| - 1]) + Block(segs[|segs| - 1])
  }

  /** One more turn of the loop appends the next segment's block. */
  lemma WrittenStep(segs: seq<Segment>, i: nat)
    requires i < |segs|
    ensures Written(segs[..i + 1]) == Written(segs[..i]) + Block(segs[i])
  {
    assert segs[..i + 1][..i] == segs[..i];
  }

  /** Writing segment by segment produces the header followed by the cue blocks of exactly the
      segments with text, in input order. */
  lemma {:induction false} WrittenIsDocument(segs: seq<Segment>)
    ensures Written(segs) == Document(segs)
  {
    if segs != [] {
      var n := |segs| - 1;
      var init, last := segs[..n], segs[n];
      assert segs == init + [last];
      assert Written(segs) == Written(init) + Block(last);
      WrittenIsDocument(init);
      FilterSnoc(init, last, HasText);
      if HasText(last) {
        assert Kept(segs) == Kept(init) + [last];
        FlattenSnoc(Kept(init), last, CueBlock);
        AppendAssoc(Header, Flatten(Kept(init), CueBlock), CueBlock(last));
      } else {
        assert Kept(segs) == Kept(init);
      }
    }
  }

  /** The file always opens with the header. */
  lemma StartsWithHeader(segs: seq<Segment>)
    ensures |Written(segs)| >= |Header| && Written(segs)[..|Header|] == Header
  {
    WrittenIsDocument(segs);
  }

  /** The file is exactly the header when, and only when, every segment is blank. */
  lemma AllBlankIsHeader(segs: seq<Segment>)
    ensures Document(segs) == Header <==> forall i :: 0 <= i < |segs| ==> !HasText(segs[i])
  {
    FilterEmpty(segs, HasText);
    var ks := Kept(segs);
    if ks != [] {
      var n := |ks| - 1;
      assert ks == ks[..n] + [ks[n]];
      FlattenSnoc(ks[..n], ks[n], CueBlock);
    }
  }

  /** An open text file in write mode: what has been written so far. */
  class TextFile {
    var written: string

    constructor ()
      ensures written == []
    {
      written := [];
    }

    /** `f.write(s)` */
    method Write(s: string)
      modifies this
      ensures written == old(written) + s
    {
      written := written + s;
    }
  }

  /** The loop of `write_vtt`: the header, then a timing line and a text line per segment whose
      stripped text is not empty. Returns what the file holds when it is closed. */
  method WriteVtt(segments: seq<Segment>) returns (contents: string)
    ensures contents == Written(segments)
  {
    var f := new TextFile();
    f.Write(Header);
    for i := 0 to |segments|
      invariant f.written == Written(segments[..i])
    {
      var seg := segments[i];
      WrittenStep(segments, i);
      var text := Strip(seg.text);
      if text == [] {
        assert Block(seg) == [];
        continue;
      }
      var start := Format(seg.start);
      var end := Format(seg.end);
      ghost var before := f.written;
      f.Write(start + " --> " + end + "\n");
      f.Write(text + "\n\n");
      CueBlockLines(seg);
      AppendAssoc(before, start + " --> " + end + "\n", text + "\n\n");
      assert f.written == before + Block(seg);
    }
    assert segments[..|segments|] == segments;
    contents := f.written;
  }
}
