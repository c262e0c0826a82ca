/**
 * The INDI server's per-connection read buffer: a list of text lines, the
 * last of which may still be incomplete, extended by each chunk read from
 * the socket.
 */
module LineBuffer {
  import opened Text

  /** The buffer after `text` arrived: the first piece glued onto the last line, the other pieces appended. */
  function BufferUpdate(buf: seq<string>, text: string): (r: seq<string>)
    ensures |r| >= 1 && |r| >= |buf|
  {
    var d := Split(text, '\n');
    var b := if buf == [] then [""] else buf;
    b[..|b| - 1] + [b[|b| - 1] + d[0]] + d[1..]
  }

  /** `Indiserver._buffer_update` on a buffer held in place. */
  class ReadBuffer {
    var lines: seq<string>

    constructor ()
      ensures lines == []
    {
      lines := [];
    }

    method Update(text: string)
      modifies this
      ensures lines == BufferUpdate(old(lines), text)
    {
      var d := Split(text, '\n');
      if lines == [] {
        lines := lines + [""];
      }
      lines := lines[|lines| - 1 := lines[|lines| - 1] + d[0]];
      lines := lines + d[1..];
    }
  }

  /** Lengthening the last string lengthens the join by the same text. */
  lemma JoinExtendLast(p: seq<string>, x: string, t: string, sep: char)
    ensures Join(p + [x + t], sep) == Join(p + [x], sep) + t
  {
    if p == [] {
      assert p + [x + t] == [x + t] && p + [x] == [x];
    } else {
      JoinAppend(p, [x + t], sep);
      JoinAppend(p, [x], sep);
    }
  }

  /** Gluing the first of `d` onto the last of `p + [x]` and appending the rest joins to the two joins concatenated. */
  lemma JoinGlue(p: seq<string>, x: string, d: seq<string>, sep: char)
    requires |d| >= 1
    ensures Join(p + [x + d[0]] + d[1..], sep) == Join(p + [x], sep) + Join(d, sep)
  {
    JoinExtendLast(p, x, d[0], sep);
    if |d| == 1 {
      assert p + [x + d[0]] + d[1..] == p + [x + d[0]];
    } else {
      JoinAppend(p + [x + d[0]], d[1..], sep);
      JoinAppend([d[0]], d[1..], sep);
      assert [d[0]] + d[1..] == d;
    }
  }

  /** Joining the buffer with newlines gives everything received so far: no text is lost or reordered. */
  lemma BufferUpdateJoin(buf: seq<string>, text: string)
    ensures Join(BufferUpdate(buf, text), '\n') == Join(buf, '\n') + text
  {
    var d := Split(text, '\n');
    var b := if buf == [] then [""] else buf;
    assert Join(b, '\n') == Join(buf, '\n');
    JoinGlue(b[..|b| - 1], b[|b| - 1], d, '\n');
    assert b[..|b| - 1] + [b[|b| - 1]] == b;
    JoinSplit(text, '\n');
  }

  /** Every string of the buffer stays free of newlines, and every newline of `text` starts a new string. */
  lemma BufferUpdateLines(buf: seq<string>, text: string)
    requires forall i :: 0 <= i < |buf| ==> '\n' !in buf[i]
    ensures forall i :: 0 <= i < |BufferUpdate(buf, text)| ==> '\n' !in BufferUpdate(buf, text)[i]
    ensures |BufferUpdate(buf, text)| == (if buf == [] then 1 else |buf|) + |Split(text, '\n')| - 1
  {
    var d := Split(text, '\n');
    var b := if buf == [] then [""] else buf;
    var r := BufferUpdate(buf, text);
    forall i | 0 <= i < |r|
      ensures '\n' !in r[i]
    {
      if i == |b| - 1 {
        assert r[i] == b[|b| - 1] + d[0];
      } else if i >= |b| {
        assert r[i] == d[i - |b| + 1];
      } else {
        assert r[i] == b[i];
      }
    }
  }
}
