/**
 * The plain-text caption export the history cards and the latest-caption panel both build:
 * a template of eleven lines naming the file, the upload time and the three captions, saved as
 * `captions-<original name>.txt`. Date formatting (`toLocaleString`) is left to the caller as
 * an already formatted string.
 */
module CaptionExport {
  import opened Common
  import opened Strings
  import opened Schema

  /** `${x}` on a nullable caption: a null column renders as the text `null`. */
  function Interpolate(o: Option<string>): (r: string)
    ensures o.Some? ==> r == o.value
    ensures o.None? ==> r == "null"
  {
    match o
    case Some(s) => s
    case None => "null"
  }

  /** The export template, filled in for one image. */
  function ExportText(img: Image, uploaded: string): (r: string)
    ensures |r| == 48 + |img.originalName| + |uploaded| + |Interpolate(img.captionEnglish)|
                   + |Interpolate(img.captionTelugu)| + |Interpolate(img.captionHindi)|
    ensures StartsWith(r, "Image: ") && r[7..7 + |img.originalName|] == img.originalName
  {
    "Image: " + img.originalName + "\nUploaded: " + uploaded
    + "\n\nEnglish:\n" + Interpolate(img.captionEnglish)
    + "\n\nTelugu:\n" + Interpolate(img.captionTelugu)
    + "\n\nHindi:\n" + Interpolate(img.captionHindi)
  }

  /** The download name for an image's export. */
  function ExportFileName(img: Image): (r: string)
    ensures StartsWith(r, "captions-")
    ensures |r| == |img.originalName| + 13 && r[9..|r| - 4] == img.originalName
    ensures r[|r| - 4..] == ".txt"
  {
    var r := "captions-" + img.originalName + ".txt";
    assert r[..9] == "captions-";
    r
  }

  // ---------------------------------------------------------------------------
  // Lines
  // ---------------------------------------------------------------------------

  predicate NoNewline(s: string)
  {
    forall i :: 0 <= i < |s| ==> s[i] != '\n'
  }

  /** Lines joined with newline separators. */
  function JoinLines(lines: seq<string>): string
    requires |lines| > 0
  {
    if |lines| == 1 then lines[0] else lines[0] + "\n" + JoinLines(lines[1..])
  }

  /** `text.split("\n")`: the pieces between newlines, always at least one. */
  function SplitLines(s: string): (r: seq<string>)
    ensures |r| > 0
    decreases |s|
  {
    if |s| == 0 then [""]
    else
      var rest := SplitLines(s[1..]);
      if s[0] == '\n' then [""] + rest else [[s[0]] + rest[0]] + rest[1..]
  }

  lemma {:induction false} SplitSingleLine(a: string)
    requires NoNewline(a)
    ensures SplitLines(a) == [a]
    decreases |a|
  {
    if |a| > 0 {
      SplitSingleLine(a[1..]);
      assert [a[0]] + a[1..] == a;
    }
  }

  lemma {:induction false} SplitFirstLine(a: string, b: string)
    requires NoNewline(a)
    ensures SplitLines(a + "\n" + b) == [a] + SplitLines(b)
    decreases |a|
  {
    var s := a + "\n" + b;
    if |a| == 0 {
      assert s[1..] == b;
    } else {
      assert s[1..] == a[1..] + "\n" + b;
      SplitFirstLine(a[1..], b);
      assert [a[0]] + a[1..] == a;
    }
  }

  /** Splitting joined lines gives the lines back, as long as none contains a newline. */
  lemma {:induction false} SplitJoin(lines: seq<string>)
    requires |lines| > 0
    requires forall i :: 0 <= i < |lines| ==> NoNewline(lines[i])
    ensures SplitLines(JoinLines(lines)) == lines
    decreases |lines|
  {
    if |lines| == 1 {
      SplitSingleLine(lines[0]);
    } else {
      SplitFirstLine(lines[0], JoinLines(lines[1..]));
      SplitJoin(lines[1..]);
    }
  }

  /** The eleven lines of an export. */
  function ExportLines(img: Image, uploaded: string): (r: seq<string>)
    ensures |r| == 11
  {
    ["Image: " + img.originalName, "Uploaded: " + uploaded, "",
     "English:", Interpolate(img.captionEnglish), "",
     "Telugu:", Interpolate(img.captionTelugu), "",
     "Hindi:", Interpolate(img.captionHindi)]
  }

  /** Joining two non-empty runs of lines puts one newline between their joins. */
  lemma {:induction false} JoinAppend(a: seq<string>, b: seq<string>)
    requires |a| > 0 && |b| > 0
    ensures JoinLines(a + b) == JoinLines(a) + "\n" + JoinLines(b)
    decreases |a|
  {
    assert (a + b)[0] == a[0];
    if |a| == 1 {
      assert (a + b)[1..] == b;
    } else {
      assert (a + b)[1..] == a[1..] + b;
      JoinAppend(a[1..], b);
      var x, y := JoinLines(a[1..]), JoinLines(b);
      assert a[0] + "\n" + (x + "\n" + y) == (a[0] + "\n" + x) + "\n" + y;
    }
  }

  /** The first two lines of an export, joined. */
  lemma JoinHead(name: string, uploaded: string)
    ensures JoinLines(["Image: " + name, "Uploaded: " + uploaded]) == "Image: " + name + "\nUploaded: " + uploaded
  {
    var l := ["Image: " + name, "Uploaded: " + uploaded];
    assert l[1..] == ["Uploaded: " + uploaded];
    assert "\nUploaded: " == "\n" + "Uploaded: ";
  }

  /** A labelled block (a blank line, the title, the value) joined onto the text before it. */
  lemma JoinBlock(before: string, title: string, value: string, header: string)
    requires header == "\n\n" + title + "\n"
    ensures before + "\n" + JoinLines(["", title, value]) == before + header + value
  {
    var l := ["", title, value];
    assert l[1..] == [title, value];
    assert [title, value][1..] == [value];
    assert JoinLines([title, value]) == title + "\n" + value;
    assert JoinLines(l) == "" + "\n" + (title + "\n" + value);
  }

  /** The eleven lines are the two header lines followed by three labelled blocks. */
  lemma ExportLinesBlocks(img: Image, uploaded: string)
    ensures ExportLines(img, uploaded)
         == ["Image: " + img.originalName, "Uploaded: " + uploaded]
          + ["", "English:", Interpolate(img.captionEnglish)]
          + ["", "Telugu:", Interpolate(img.captionTelugu)]
          + ["", "Hindi:", Interpolate(img.captionHindi)]
  {
  }

  /** The template text is exactly its eleven lines joined by newlines. */
  lemma ExportTextIsLines(img: Image, uploaded: string)
    ensures ExportText(img, uploaded) == JoinLines(ExportLines(img, uploaded))
  {
    var e, t, h := Interpolate(img.captionEnglish), Interpolate(img.captionTelugu), Interpolate(img.captionHindi);
    var head := ["Image: " + img.originalName, "Uploaded: " + uploaded];
    var en, te, hi := ["", "English:", e], ["", "Telugu:", t], ["", "Hindi:", h];
    ExportLinesBlocks(img, uploaded);
    JoinHead(img.originalName, uploaded);
    var p1 := "Image: " + img.originalName + "\nUploaded: " + uploaded;
    JoinAppend(head, en);
    JoinBlock(p1, "English:", e, "\n\nEnglish:\n");
    var p2 := p1 + "\n\nEnglish:\n" + e;
    JoinAppend(head + en, te);
    JoinBlock(p2, "Telugu:", t, "\n\nTelugu:\n");
    var p3 := p2 + "\n\nTelugu:\n" + t;
    JoinAppend(head + en + te, hi);
    JoinBlock(p3, "Hindi:", h, "\n\nHindi:\n");
  }

  // ---------------------------------------------------------------------------
  // Reading an export back
  // ---------------------------------------------------------------------------

  /** What a reader recovers from an export file. */
  datatype ExportFields = ExportFields(originalName: string, uploaded: string,
                                       english: string, telugu: string, hindi: string)

  /** Reads an export back: the eleven lines, with their labels, in order. */
  function ParseExport(text: string): Option<ExportFields>
  {
    var l := SplitLines(text);
    if |l| == 11 && StartsWith(l[0], "Image: ") && StartsWith(l[1], "Uploaded: ")
       && l[2] == "" && l[3] == "English:" && l[5] == "" && l[6] == "Telugu:"
       && l[8] == "" && l[9] == "Hindi:"
    then Some(ExportFields(l[0][7..], l[1][10..], l[4], l[7], l[10]))
    else None
  }

  /**
   * An export reads back to the original file name, the upload time and the three captions
   * (a null caption reading back as `null`), provided none of them contains a line break.
   */
  lemma ExportRoundTrip(img: Image, uploaded: string)
    requires NoNewline(img.originalName) && NoNewline(uploaded)
    requires NoNewline(Interpolate(img.captionEnglish))
    requires NoNewline(Interpolate(img.captionTelugu))
    requires NoNewline(Interpolate(img.captionHindi))
    ensures ParseExport(ExportText(img, uploaded))
         == Some(ExportFields(img.originalName, uploaded, Interpolate(img.captionEnglish),
                              Interpolate(img.captionTelugu), Interpolate(img.captionHindi)))
  {
    var l := ExportLines(img, uploaded);
    ExportTextIsLines(img, uploaded);
    assert NoNewline("Image: ") && NoNewline("Uploaded: ") && NoNewline("English:");
    assert NoNewline("Telugu:") && NoNewline("Hindi:");
    assert forall i :: 0 <= i < |l| ==> NoNewline(l[i]);
    SplitJoin(l);
    assert l[0][..7] == "Image: " && l[0][7..] == img.originalName;
    assert l[1][..10] == "Uploaded: " && l[1][10..] == uploaded;
  }

  /** Captions come out in the fixed order English, Telugu, Hindi, each under its own label. */
  lemma ExportCaptionOrder(img: Image, uploaded: string)
    ensures var l := ExportLines(img, uploaded);
      && l[3] == "English:" && l[4] == Interpolate(img.captionEnglish)
      && l[6] == "Telugu:" && l[7] == Interpolate(img.captionTelugu)
      && l[9] == "Hindi:" && l[10] == Interpolate(img.captionHindi)
  {
  }
}
