/**
 * The boundary between the replication core and its transport: the JSON
 * encoding of activity-log records (a collaborator, given with its law), the
 * HTTP response writer the change stream writes and flushes into, and the
 * newline-delimited reading of a response body (bufio.Reader.ReadBytes('\n')).
 */
module Wire {
  import opened Base
  import opened Models

  /** What json.Unmarshal leaves in the target record, and whether it reported success. */
  datatype Decoded = Decoded(value: ActivityLog, ok: bool)

  /** encoding/json for ActivityLog: Marshal, and Unmarshal into a zero-valued record. */
  datatype Json = Json(marshal: ActivityLog -> Option<string>, decode: string -> Decoded)

  /**
   * The law of encoding/json for this record type: marshalling succeeds, the
   * text holds no raw newline (newlines in strings are escaped), and decoding
   * the text followed by a newline gives the record back.
   */
  ghost predicate Lawful(j: Json) {
    forall x :: j.marshal(x).Some? && '\n' !in j.marshal(x).value && j.decode(j.marshal(x).value + "\n") == Decoded(x, true)
  }

  // ----- writing -----

  datatype WriterEvent = Write(data: string) | Flush

  /** One streamed record: its text, a newline, then a flush. */
  function Frame(line: string): seq<WriterEvent> {
    [Write(line), Write("\n"), Flush]
  }

  function Frames(lines: seq<string>): (r: seq<WriterEvent>)
    ensures |r| == 3 * |lines|
  {
    if lines == [] then [] else Frame(lines[0]) + Frames(lines[1..])
  }

  /** The bytes a sequence of writer events puts on the wire. */
  function Text(events: seq<WriterEvent>): string {
    if events == [] then ""
    else (match events[0] case Write(d) => d case Flush => "") + Text(events[1..])
  }

  /** Newline-terminated lines, one after the other. */
  function StreamText(lines: seq<string>): string {
    if lines == [] then "" else lines[0] + "\n" + StreamText(lines[1..])
  }

  lemma {:induction false} FramesSnoc(lines: seq<string>, x: string)
    ensures Frames(lines + [x]) == Frames(lines) + Frame(x)
  {
    if lines != [] {
      assert (lines + [x])[1..] == lines[1..] + [x];
      FramesSnoc(lines[1..], x);
    }
  }

  lemma {:induction false} TextAppend(a: seq<WriterEvent>, b: seq<WriterEvent>)
    ensures Text(a + b) == Text(a) + Text(b)
  {
    if a != [] {
      assert (a + b)[0] == a[0];
      assert (a + b)[1..] == a[1..] + b;
      TextAppend(a[1..], b);
    } else {
      assert a + b == b;
    }
  }

  /** What the wire carries for a flushed stream of records: each record followed by a newline. */
  lemma {:induction false} TextOfFrames(lines: seq<string>)
    ensures Text(Frames(lines)) == StreamText(lines)
  {
    if lines != [] {
      TextAppend(Frame(lines[0]), Frames(lines[1..]));
      TextOfFrames(lines[1..]);
      var f := Frame(lines[0]);
      assert Text(f[2..]) == "";
      assert Text(f[1..]) == "\n" + Text(f[2..]);
      assert Text(f) == lines[0] + Text(f[1..]);
    }
  }

  /** The HTTP response writer: an io.Writer that is also an http.Flusher. Its output only grows. */
  class Sink {
    var events: seq<WriterEvent>

    constructor ()
      ensures events == []
    {
      events := [];
    }

    method Write(data: string)
      modifies this
      ensures events == old(events) + [WriterEvent.Write(data)]
    {
      events := events + [WriterEvent.Write(data)];
    }

    method Flush()
      modifies this
      ensures events == old(events) + [WriterEvent.Flush]
    {
      events := events + [WriterEvent.Flush];
    }
  }

  // ----- reading -----

  /** How a response body ends once its data is exhausted: cleanly, or with a transport error. */
  datatype StreamEnd = AtEof | Broken

  datatype Body = Body(data: string, end: StreamEnd)

  /** The bytes one ReadBytes call returns, its error, and where the next call starts. */
  datatype ReadResult = ReadResult(line: string, err: Option<StreamEnd>, next: nat)

  function NewlineFrom(s: string, pos: nat): (r: Option<nat>)
    requires pos <= |s|
    ensures r.Some? ==> pos <= r.value < |s| && s[r.value] == '\n' && forall i :: pos <= i < r.value ==> s[i] != '\n'
    ensures r.None? ==> forall i :: pos <= i < |s| ==> s[i] != '\n'
    decreases |s| - pos
  {
    if pos == |s| then None else if s[pos] == '\n' then Some(pos) else NewlineFrom(s, pos + 1)
  }

  /**
   * bufio.Reader.ReadBytes('\n') from position pos: everything up to and
   * including the next newline; or, when there is none, the rest of the data
   * with the body's end condition as the error. A transport error repeats on
   * every later call.
   */
  function ReadBytes(b: Body, pos: nat): (r: ReadResult)
    requires pos <= |b.data|
    ensures pos <= r.next <= |b.data| && r.line == b.data[pos..r.next]
    ensures r.err.None? ==> r.next > pos && b.data[r.next - 1] == '\n'
    ensures r.err.Some? ==> r.next == |b.data| && r.err == Some(b.end) && '\n' !in r.line
  {
    match NewlineFrom(b.data, pos)
    case Some(j) => ReadResult(b.data[pos..j + 1], None, j + 1)
    case None => ReadResult(b.data[pos..], Some(b.end), |b.data|)
  }

  /** Reading a stream of whole lines, possibly followed by an unterminated tail, yields its first line, newline included. */
  lemma ReadBytesLine(b: Body, pos: nat, lines: seq<string>, tail: string)
    requires pos <= |b.data| && b.data[pos..] == StreamText(lines) + tail
    requires lines != [] && '\n' !in lines[0]
    ensures ReadBytes(b, pos) == ReadResult(lines[0] + "\n", None, pos + |lines[0]| + 1)
    ensures b.data[pos + |lines[0]| + 1..] == StreamText(lines[1..]) + tail
  {
    var l := lines[0];
    var after := StreamText(lines[1..]) + tail;
    assert NewlineFrom(b.data, pos) == Some(pos + |l|) && b.data[pos..pos + |l| + 1] == l + "\n" && b.data[pos + |l| + 1..] == after by {
      assert b.data[pos..] == l + "\n" + after by {
        assert StreamText(lines) == l + "\n" + StreamText(lines[1..]);
      }
      SplitLine(b.data, pos, l, after);
      FirstNewline(b.data, pos, l);
    }
  }

  lemma SplitLine(s: string, pos: nat, l: string, after: string)
    requires pos <= |s| && s[pos..] == l + "\n" + after
    ensures pos + |l| < |s| && s[pos..pos + |l| + 1] == l + "\n" && s[pos + |l| + 1..] == after
  {
    assert s[pos..pos + |l| + 1] == s[pos..][..|l| + 1];
    assert s[pos + |l| + 1..] == s[pos..][|l| + 1..];
  }

  /** The first newline from pos on ends the line l starting there. */
  lemma FirstNewline(s: string, pos: nat, l: string)
    requires pos + |l| < |s| && s[pos..pos + |l| + 1] == l + "\n" && '\n' !in l
    ensures NewlineFrom(s, pos) == Some(pos + |l|)
  {
    var w := s[pos..pos + |l| + 1];
    forall i | pos <= i < pos + |l| ensures s[i] != '\n' {
      assert s[i] == w[i - pos] == l[i - pos];
    }
    assert s[pos + |l|] == w[|l|];
  }

  /** When no newline is left, reading yields the rest of the data and the body's end condition. */
  lemma ReadBytesLast(b: Body, pos: nat)
    requires pos <= |b.data| && '\n' !in b.data[pos..]
    ensures ReadBytes(b, pos) == ReadResult(b.data[pos..], Some(b.end), |b.data|)
  {
    assert forall i :: pos <= i < |b.data| ==> b.data[i] == b.data[pos..][i - pos];
  }

  /** Reading at the end of the data yields nothing and the body's end condition. */
  lemma ReadBytesAtEnd(b: Body)
    ensures ReadBytes(b, |b.data|) == ReadResult("", Some(b.end), |b.data|)
  {
  }
}
