/**
 * The list of camera addresses: `CameraManager.read_camera_urls` (a text file, one
 * address per line, with 16 made-up addresses when the file does not exist) and the
 * parsing of an uploaded configuration file in `main()`.
 */
module CameraUrls {
  import opened Wrappers
  import Text

  /** Line boundaries of a file read in text mode: universal newlines end a line at
      `\n`, `\r` or `\r\n` (the empty piece a `\r\n` leaves is blank and dropped). */
  const FileLineBreaks: set<char> := {'\n', '\r'}

  /** The uploaded text is split with `split('\n')`. */
  const UploadLineBreak: char := '\n'

  /** Number of made-up addresses returned when the file is missing. */
  const MockCount: nat := 16

  /** A configuration entry: not empty, no surrounding whitespace, no line feed inside. */
  predicate IsEntry(e: string)
  {
    e != [] && Text.IsStripped(e) && Text.Avoids(e, {'\n'})
  }

  /** `[line.strip() for line in lines if line.strip()]` */
  function KeepNonBlank(lines: seq<string>): (r: seq<string>)
    ensures |r| <= |lines|
    ensures forall j :: 0 <= j < |r| ==> r[j] != [] && Text.IsStripped(r[j])
  {
    if lines == [] then []
    else
      var e := Text.Strip(lines[0]);
      var rest := KeepNonBlank(lines[1..]);
      if e == [] then rest else [e] + rest
  }

  /** No string of `r` contains a character of `cs`. */
  predicate AllAvoid(r: seq<string>, cs: set<char>)
  {
    forall j :: 0 <= j < |r| ==> Text.Avoids(r[j], cs)
  }

  lemma AllAvoidTail(r: seq<string>, cs: set<char>)
    requires r != [] && AllAvoid(r, cs)
    ensures Text.Avoids(r[0], cs) && AllAvoid(r[1..], cs)
  {
    assert forall j :: 0 <= j < |r[1..]| ==> r[1..][j] == r[j + 1];
  }

  lemma AllAvoidCons(e: string, r: seq<string>, cs: set<char>)
    requires Text.Avoids(e, cs) && AllAvoid(r, cs)
    ensures AllAvoid([e] + r, cs)
  {
    assert forall j :: 1 <= j < |[e] + r| ==> ([e] + r)[j] == r[j - 1];
  }

  /** Entries come from the lines, so a character no line holds is in no entry. */
  lemma {:induction false} KeepNonBlankAvoids(lines: seq<string>, cs: set<char>)
    requires AllAvoid(lines, cs)
    ensures AllAvoid(KeepNonBlank(lines), cs)
  {
    if lines != [] {
      var e := Text.Strip(lines[0]);
      var rest := KeepNonBlank(lines[1..]);
      assert KeepNonBlank(lines) == if e == [] then rest else [e] + rest;
      AllAvoidTail(lines, cs);
      KeepNonBlankAvoids(lines[1..], cs);
      if e != [] {
        Text.StripAvoids(lines[0], cs);
        AllAvoidCons(e, rest, cs);
      }
    }
  }

  /** The stripped, non-blank lines of `text` when lines end at the characters `breaks`. */
  function ParseLines(text: string, breaks: set<char>): (r: seq<string>)
    ensures forall j :: 0 <= j < |r| ==> r[j] != [] && Text.IsStripped(r[j])
    ensures forall j :: 0 <= j < |r| ==> Text.Avoids(r[j], breaks)
  {
    var lines := Text.Split(text, breaks);
    KeepNonBlankAvoids(lines, breaks);
    KeepNonBlank(lines)
  }

  /** The made-up address of camera `i` (counted from 0): `rtsp://camera{i+1}.example.com/stream`. */
  function MockUrl(i: nat): (u: string)
    ensures |u| > 13 + 19
    ensures u[..13] == "rtsp://camera" && u[|u| - 19..] == ".example.com/stream"
    ensures u[13] != '0'
    ensures forall k :: 13 <= k < |u| - 19 ==> Text.IsDigit(u[k])
    ensures Text.DigitsValue(u[13..|u| - 19]) == i + 1
  {
    var d := Text.DecimalString(i + 1);
    Text.DecimalRoundTrip(i + 1);
    var u := "rtsp://camera" + d + ".example.com/stream";
    assert u[..13] == "rtsp://camera" && u[13..|u| - 19] == d && u[|u| - 19..] == ".example.com/stream";
    u
  }

  /** `[f"rtsp://camera{i+1}.example.com/stream" for i in range(16)]` */
  function MockUrls(): (r: seq<string>)
    ensures |r| == MockCount
    ensures forall i :: 0 <= i < |r| ==> IsEntry(r[i])
  {
    var r := seq(MockCount, i requires 0 <= i => MockUrl(i));
    assert forall i :: 0 <= i < |r| ==> IsEntry(r[i]) by {
      forall i | 0 <= i < |r| ensures IsEntry(r[i]) {
        MockUrlIsEntry(i);
      }
    }
    r
  }

  lemma MockUrlIsEntry(i: nat)
    ensures IsEntry(MockUrl(i))
  {
    var u := MockUrl(i);
    var head, tail := u[..13], u[|u| - 19..];
    assert '\n' !in head && '\n' !in tail;
    forall k | 0 <= k < |u| ensures u[k] != '\n' {
      if k < 13 {
        assert u[k] == head[k];
      } else if k >= |u| - 19 {
        assert u[k] == tail[k - (|u| - 19)];
      }
    }
    assert u[0] == head[0] && u[|u| - 1] == tail[18];
  }

  /** `read_camera_urls(filename)`: `file` is the file's text, or `None` when opening it
      raises `FileNotFoundError`. */
  function ReadCameraUrls(file: Option<string>): (r: seq<string>)
    ensures forall j :: 0 <= j < |r| ==> IsEntry(r[j])
    ensures file.None? ==> |r| == MockCount
  {
    match file
    case None => MockUrls()
    case Some(text) => ParseLines(text, FileLineBreaks)
  }

  /** `uploaded_file.read().decode().strip().split('\n')` followed by
      `[url.strip() for url in camera_urls if url.strip()]`. */
  function ParseUpload(text: string): (r: seq<string>)
    ensures forall j :: 0 <= j < |r| ==> IsEntry(r[j])
  {
    ParseLines(Text.Strip(text), {UploadLineBreak})
  }

  /** The list `main()` works with: the uploaded file when there is one, otherwise the
      configuration file (`txt/mbf.txt`). */
  function ConfiguredUrls(upload: Option<string>, file: Option<string>): (r: seq<string>)
    ensures forall j :: 0 <= j < |r| ==> IsEntry(r[j])
    ensures upload.None? && file.None? ==> |r| == MockCount
  {
    if upload.Some? then ParseUpload(upload.value) else ReadCameraUrls(file)
  }

  // ---------------------------------------------------------------------------
  // What the parse keeps, and in which order

  /** Filtering the lines of two blocks is filtering each block. */
  lemma {:induction false} KeepNonBlankAppend(a: seq<string>, b: seq<string>)
    ensures KeepNonBlank(a + b) == KeepNonBlank(a) + KeepNonBlank(b)
  {
    if a == [] {
      assert a + b == b;
    } else {
      assert (a + b)[0] == a[0];
      assert (a + b)[1..] == a[1..] + b;
      var e := Text.Strip(a[0]);
      var x, y := KeepNonBlank(a[1..]), KeepNonBlank(b);
      assert [e] + (x + y) == ([e] + x) + y;
      KeepNonBlankAppend(a[1..], b);
    }
  }

  /** The entries of a text are the entries before a line break followed by the entries
      after it: the parse keeps the order of the lines. */
  lemma ParseLinesAt(a: string, c: char, b: string, breaks: set<char>)
    requires c in breaks
    ensures ParseLines(a + [c] + b, breaks) == ParseLines(a, breaks) + ParseLines(b, breaks)
  {
    Text.SplitAt(a, c, b, breaks);
    KeepNonBlankAppend(Text.Split(a, breaks), Text.Split(b, breaks));
  }

  /** A single line gives its stripped text, or nothing when it is blank. */
  lemma ParseSingleLine(s: string, breaks: set<char>)
    requires Text.Avoids(s, breaks)
    ensures ParseLines(s, breaks) == if Text.Strip(s) == [] then [] else [Text.Strip(s)]
  {
    Text.SplitNoSeparator(s, breaks);
  }

  /** Whitespace in front of the text changes no entry. */
  lemma ParseConsSpace(c: char, t: string, breaks: set<char>)
    requires Text.IsSpace(c)
    ensures ParseLines([c] + t, breaks) == ParseLines(t, breaks)
  {
    if c in breaks {
      assert [c] + t == [] + [c] + t;
      ParseLinesAt([], c, t, breaks);
    } else {
      assert ([c] + t)[1..] == t;
      var r := Text.Split(t, breaks);
      assert r == [r[0]] + r[1..];
      var r' := [[c] + r[0]] + r[1..];
      assert Text.Split([c] + t, breaks) == r';
      assert r'[1..] == r[1..];
      Text.StripConsSpace(c, r[0]);
    }
  }

  /** Whitespace after the text changes no entry. */
  lemma ParseSnocSpace(t: string, c: char, breaks: set<char>)
    requires Text.IsSpace(c)
    ensures ParseLines(t + [c], breaks) == ParseLines(t, breaks)
  {
    if c in breaks {
      assert t + [c] == t + [c] + [];
      ParseLinesAt(t, c, [], breaks);
    } else {
      var p := Text.Split(t, breaks);
      var n := |p|;
      assert p == p[..n - 1] + [p[n - 1]];
      Text.SplitSnoc(t, c, breaks);
      Text.StripSnocSpace(p[n - 1], c);
      KeepNonBlankAppend(p[..n - 1], [p[n - 1] + [c]]);
      KeepNonBlankAppend(p[..n - 1], [p[n - 1]]);
    }
  }

  lemma {:induction false} ParseTrimLeft(s: string, breaks: set<char>)
    ensures ParseLines(Text.TrimLeft(s), breaks) == ParseLines(s, breaks)
  {
    if s != [] && Text.IsSpace(s[0]) {
      assert [s[0]] + s[1..] == s;
      ParseConsSpace(s[0], s[1..], breaks);
      ParseTrimLeft(s[1..], breaks);
    }
  }

  lemma {:induction false} ParseTrimRight(s: string, breaks: set<char>)
    ensures ParseLines(Text.TrimRight(s), breaks) == ParseLines(s, breaks)
  {
    if s != [] && Text.IsSpace(s[|s| - 1]) {
      assert s[..|s| - 1] + [s[|s| - 1]] == s;
      ParseSnocSpace(s[..|s| - 1], s[|s| - 1], breaks);
      ParseTrimRight(s[..|s| - 1], breaks);
    }
  }

  /** Stripping the whole upload before splitting it changes no entry. */
  lemma UploadStripIsRedundant(text: string)
    ensures ParseUpload(text) == ParseLines(text, {UploadLineBreak})
  {
    ParseTrimLeft(text, {UploadLineBreak});
    ParseTrimRight(Text.TrimLeft(text), {UploadLineBreak});
  }

  /** An upload without carriage returns yields exactly the entries the same text would
      yield as the configuration file. */
  lemma UploadAgreesWithFile(text: string)
    requires forall k :: 0 <= k < |text| ==> text[k] != '\r'
    ensures ParseUpload(text) == ReadCameraUrls(Some(text))
  {
    UploadStripIsRedundant(text);
    Text.SplitSameBreaks(text, {UploadLineBreak}, FileLineBreaks);
  }

  // ---------------------------------------------------------------------------
  // The made-up list

  /** The fallback list: 16 addresses, entry `i` naming camera `i + 1`. */
  lemma MockList()
    ensures var r := ReadCameraUrls(None);
            |r| == 16
            && r[0] == "rtsp://camera" + "1" + ".example.com/stream"
            && r[15] == "rtsp://camera" + "16" + ".example.com/stream"
            && forall i :: 0 <= i < 16 ==> r[i] == "rtsp://camera" + Text.DecimalString(i + 1) + ".example.com/stream"
  {
    assert Text.DecimalString(16) == "16";
  }

  /** The 16 made-up addresses are pairwise different. */
  lemma MockUrlsDistinct(i: nat, j: nat)
    requires i < MockCount && j < MockCount && i != j
    ensures ReadCameraUrls(None)[i] != ReadCameraUrls(None)[j]
  {
    var a, b := MockUrl(i), MockUrl(j);
    assert a[13..|a| - 19] != b[13..|b| - 19];
  }
}
