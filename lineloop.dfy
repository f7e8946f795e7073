/** The serial front end: the banner, the assembly of command lines from
    single bytes, and one reply line per command line. */
module LineLoop {
  import opened Wire
  import opened Access
  import opened Dispatcher

  /** Written once, before anything is read. */
  const Banner: string := "MC68332 BDM MicroPython Interface Ready\r\n"
  /** Appended to every reply. */
  const Eol: string := "\r\n"

  /** The two characters that end a command line. */
  predicate IsBreak(c: char)
  {
    c == '\n' || c == '\r'
  }

  predicate NoBreak(s: string)
  {
    forall i :: 0 <= i < |s| ==> !IsBreak(s[i])
  }

  /** The serial port: the bytes the host has sent that are not read yet,
      and the strings written so far, one per `write`. */
  class Channel {
    var input: seq<Byte>
    var output: seq<string>

    constructor (input: seq<Byte>)
      ensures this.input == input && output == []
    {
      this.input, output := input, [];
    }

    /** `read(1)` when a byte is waiting. */
    method Read() returns (b: Byte)
      requires input != []
      modifies this`input
      ensures b == old(input)[0] && input == old(input)[1..]
    {
      b, input := input[0], input[1..];
    }

    /** `write(s)`. */
    method Write(s: string)
      modifies this`output
      ensures output == old(output) + [s]
    {
      output := output + [s];
    }
  }

  // ---------------------------------------------------------------------
  // Decoding

  /** The number of leading bytes that `decode('ascii')` accepts. */
  function AsciiRun(bs: seq<Byte>): (n: nat)
    ensures n <= |bs|
    ensures forall i :: 0 <= i < n ==> bs[i] < 128
    ensures n < |bs| ==> bs[n] >= 128
  {
    if bs == [] || bs[0] >= 128 then 0 else 1 + AsciiRun(bs[1..])
  }

  /** `decode('ascii')` of bytes that are all ASCII. */
  function Decode(bs: seq<Byte>): (s: string)
    requires forall i :: 0 <= i < |bs| ==> bs[i] < 128
    ensures |s| == |bs|
  {
    seq(|bs|, i requires 0 <= i < |bs| => bs[i] as char)
  }

  // ---------------------------------------------------------------------
  // Assembling lines

  /** The lines completed so far and the characters of the line under way. */
  datatype Scanner = Scanner(lines: seq<string>, buffer: string)

  /** One character read: a line break hands over a non-empty buffer and
      is otherwise ignored; any other character joins the buffer. */
  function Step(s: Scanner, c: char): (r: Scanner)
    ensures |s.lines| <= |r.lines| <= |s.lines| + 1
    ensures r.lines[..|s.lines|] == s.lines
    ensures |r.lines| == |s.lines| + 1 <==> IsBreak(c) && s.buffer != []
  {
    if IsBreak(c) then
      if s.buffer != [] then Scanner(s.lines + [s.buffer], "") else s
    else Scanner(s.lines, s.buffer + [c])
  }

  /** The characters of `input` read one by one from `s`. */
  function ScanFrom(s: Scanner, input: string): Scanner
  {
    if input == [] then s
    else Step(ScanFrom(s, input[..|input| - 1]), input[|input| - 1])
  }

  /** The lines that the main loop hands to the dispatcher for `input`,
      in order, and what is left in its buffer. */
  function Scan(input: string): Scanner
  {
    ScanFrom(Scanner([], ""), input)
  }

  /** `input` with its line breaks removed. */
  function Unbroken(input: string): (r: string)
    ensures NoBreak(r)
  {
    if input == [] then []
    else
      var last := input[|input| - 1];
      Unbroken(input[..|input| - 1]) + if IsBreak(last) then [] else [last]
  }

  function Concat(lines: seq<string>): string
  {
    if lines == [] then [] else Concat(lines[..|lines| - 1]) + lines[|lines| - 1]
  }

  /** The bytes the host sends for `lines`, each followed by `eol`. */
  function Framed(lines: seq<string>, eol: string): string
  {
    if lines == [] then [] else Framed(lines[..|lines| - 1], eol) + lines[|lines| - 1] + eol
  }

  // ---------------------------------------------------------------------
  // Serving lines

  /** The link's sample count after `lines` are handled from `start` on. */
  function Used(lines: seq<string>, start: nat): (n: nat)
    ensures n >= start
  {
    if lines == [] then start
    else
      var init := lines[..|lines| - 1];
      Used(init, start) + 17 * |Words(Parse(lines[|lines| - 1]))|
  }

  /** The reply lines written for `lines`. */
  function Replies(lines: seq<string>, frozen: bool, line: nat -> bool, start: nat): (rs: seq<string>)
    ensures |rs| == |lines|
  {
    if lines == [] then []
    else
      var init := lines[..|lines| - 1];
      Replies(init, frozen, line, start)
        + [Response(Parse(lines[|lines| - 1]), frozen, line, Used(init, start)) + Eol]
  }

  /** Everything handling `lines` does on the link. */
  function Activity(lines: seq<string>, line: nat -> bool, start: nat): seq<Event>
  {
    if lines == [] then []
    else
      var init := lines[..|lines| - 1];
      Activity(init, line, start) + Effect(Parse(lines[|lines| - 1]), line, Used(init, start))
  }

  lemma ServeSnoc(done: seq<string>, l: string, frozen: bool, line: nat -> bool, start: nat)
    ensures Used(done + [l], start) == Used(done, start) + 17 * |Words(Parse(l))|
    ensures Replies(done + [l], frozen, line, start)
         == Replies(done, frozen, line, start) + [Response(Parse(l), frozen, line, Used(done, start)) + Eol]
    ensures Activity(done + [l], line, start)
         == Activity(done, line, start) + Effect(Parse(l), line, Used(done, start))
  {
    assert (done + [l])[..|done|] == done;
  }

  // ---------------------------------------------------------------------
  // The loop

  /** `main_loop()`, run until the bytes the host has sent are used up or
      one of them is not ASCII (then `decode` raises and the exception
      leaves the loop). Every complete line is handled, in order, against
      the link as the lines before it left it, and its reply written. */
  method MainLoop(link: Link, ch: Channel)
    requires link.Valid()
    modifies link, ch
    ensures link.Valid()
    ensures var n := AsciiRun(old(ch.input));
      ch.input == if n < |old(ch.input)| then old(ch.input)[n + 1..] else []
    ensures var lines := Scan(Decode(old(ch.input)[..AsciiRun(old(ch.input))])).lines;
      && ch.output == old(ch.output) + [Banner] + Replies(lines, link.freeze, link.dso, old(link.cursor))
      && link.trace == old(link.trace) + Activity(lines, link.dso, old(link.cursor))
      && link.cursor == Used(lines, old(link.cursor))
  {
    ghost var in0, out0, t0, c0 := ch.input, ch.output, link.trace, link.cursor;
    ghost var n := AsciiRun(in0);
    ch.Write(Banner);
    var buffer := "";
    ghost var done: seq<string> := [];
    ghost var k := 0;
    while ch.input != []
      invariant k <= n && ch.input == in0[k..]
      invariant Scan(Decode(in0[..k])) == Scanner(done, buffer)
      invariant link.Valid()
      invariant ch.output == out0 + [Banner] + Replies(done, link.freeze, link.dso, c0)
      invariant link.trace == t0 + Activity(done, link.dso, c0)
      invariant link.cursor == Used(done, c0)
      decreases |ch.input|
    {
      var b := ch.Read();
      if b >= 128 {
        assert k == n && ch.input == in0[n + 1..];
        ExitLines(in0, n, done, buffer);
        return;
      }
      DecodeSnoc(in0, k);
      buffer, done := ServeChar(link, ch, b as char, buffer, done, out0 + [Banner], t0, c0);
      k := k + 1;
    }
    assert k == n;
    ExitLines(in0, n, done, buffer);
  }

  lemma ExitLines(in0: seq<Byte>, n: nat, done: seq<string>, buffer: string)
    requires n == AsciiRun(in0)
    requires Scan(Decode(in0[..n])) == Scanner(done, buffer)
    ensures Scan(Decode(in0[..AsciiRun(in0)])).lines == done
  {
  }

  /** The body of the loop for one ASCII character `c`: the loop
      invariant over `done` before, over `done'` after. */
  method ServeChar(link: Link, ch: Channel, c: char, buffer: string,
                   ghost done: seq<string>, ghost out: seq<string>, ghost t0: seq<Event>, ghost c0: nat)
    returns (buffer': string, ghost done': seq<string>)
    requires link.Valid()
    requires ch.output == out + Replies(done, link.freeze, link.dso, c0)
    requires link.trace == t0 + Activity(done, link.dso, c0)
    requires link.cursor == Used(done, c0)
    modifies link, ch`output
    ensures Scanner(done', buffer') == Step(Scanner(done, buffer), c)
    ensures link.Valid()
    ensures ch.output == out + Replies(done', link.freeze, link.dso, c0)
    ensures link.trace == t0 + Activity(done', link.dso, c0)
    ensures link.cursor == Used(done', c0)
  {
    if IsBreak(c) {
      if buffer != [] {
        HandleLine(link, ch, buffer, done, out, t0, c0);
        buffer', done' := "", done + [buffer];
      } else {
        buffer', done' := buffer, done;
      }
    } else {
      buffer', done' := buffer + [c], done;
    }
  }

  /** A complete line handed to `handle_command` and its reply written. */
  method HandleLine(link: Link, ch: Channel, l: string,
                    ghost done: seq<string>, ghost out: seq<string>, ghost t0: seq<Event>, ghost c0: nat)
    requires link.Valid()
    requires ch.output == out + Replies(done, link.freeze, link.dso, c0)
    requires link.trace == t0 + Activity(done, link.dso, c0)
    requires link.cursor == Used(done, c0)
    modifies link, ch`output
    ensures link.Valid()
    ensures ch.output == out + Replies(done + [l], link.freeze, link.dso, c0)
    ensures link.trace == t0 + Activity(done + [l], link.dso, c0)
    ensures link.cursor == Used(done + [l], c0)
  {
    ghost var rs, a := Replies(done, link.freeze, link.dso, c0), Activity(done, link.dso, c0);
    ghost var e := Effect(Parse(l), link.dso, link.cursor);
    ghost var r := Response(Parse(l), link.freeze, link.dso, link.cursor);
    var resp := HandleCommand(link, l);
    assert link.trace == t0 + a + e && resp == r;
    ch.Write(resp + Eol);
    assert ch.output == out + rs + [r + Eol] == out + (rs + [r + Eol]);
    ServeSnoc(done, l, link.freeze, link.dso, c0);
    AppendAssoc(t0, a, e);
  }

  /** Decoding keeps every byte as the character with that code. */
  lemma DecodeCodes(bs: seq<Byte>)
    requires forall i :: 0 <= i < |bs| ==> bs[i] < 128
    ensures forall i :: 0 <= i < |bs| ==> Decode(bs)[i] as int == bs[i] as int
  {
  }

  lemma DecodeSnoc(bs: seq<Byte>, k: nat)
    requires k < |bs| && forall i :: 0 <= i <= k ==> bs[i] < 128
    ensures Decode(bs[..k + 1]) == Decode(bs[..k]) + [bs[k] as char]
  {
  }

  // ---------------------------------------------------------------------
  // Properties of line assembly

  /** Every handed-over line is non-empty and free of line breaks, and so
      is the buffer. */
  predicate Tidy(s: Scanner)
  {
    && (forall i :: 0 <= i < |s.lines| ==> s.lines[i] != [] && NoBreak(s.lines[i]))
    && NoBreak(s.buffer)
  }

  /** The main loop never hands `handle_command` an empty line or one that
      contains a line break. */
  lemma {:induction false} ScanTidy(s: Scanner, input: string)
    requires Tidy(s)
    ensures Tidy(ScanFrom(s, input))
  {
    if input != [] {
      ScanTidy(s, input[..|input| - 1]);
      var p := ScanFrom(s, input[..|input| - 1]);
      var c := input[|input| - 1];
      if !IsBreak(c) {
        assert forall i :: 0 <= i < |p.buffer| + 1 ==> (p.buffer + [c])[i] == if i < |p.buffer| then p.buffer[i] else c;
      }
    }
  }

  /** No character but a line break is lost: the lines handed over and the
      buffer, put together, are the input without its line breaks. */
  lemma {:induction false} ScanContent(input: string)
    ensures Concat(Scan(input).lines) + Scan(input).buffer == Unbroken(input)
  {
    if input != [] {
      var init, c := input[..|input| - 1], input[|input| - 1];
      ScanContent(init);
      var p := Scan(init);
      if IsBreak(c) && p.buffer != [] {
        assert (p.lines + [p.buffer])[..|p.lines|] == p.lines;
        assert Concat(p.lines + [p.buffer]) + "" == Concat(p.lines) + p.buffer;
      } else if !IsBreak(c) {
        assert Concat(p.lines) + (p.buffer + [c]) == Concat(p.lines) + p.buffer + [c];
      }
    }
  }

  /** Reading `a` then `b` is reading `a + b`. */
  lemma {:induction false} ScanFromAppend(s: Scanner, a: string, b: string)
    ensures ScanFrom(s, a + b) == ScanFrom(ScanFrom(s, a), b)
  {
    if b == [] {
      assert a + b == a;
    } else {
      var b' := b[..|b| - 1];
      ScanFromAppend(s, a, b');
      assert (a + b)[..|a + b| - 1] == a + b';
    }
  }

  /** Characters other than line breaks only grow the buffer. */
  lemma {:induction false} ScanFromWord(s: Scanner, w: string)
    requires NoBreak(w)
    ensures ScanFrom(s, w) == Scanner(s.lines, s.buffer + w)
  {
    if w == [] {
      assert s.buffer + w == s.buffer;
    } else {
      var w' := w[..|w| - 1];
      ScanFromWord(s, w');
      assert s.buffer + w' + [w[|w| - 1]] == s.buffer + w;
    }
  }

  /** A run of line breaks hands over the buffer if there is one, and then
      does nothing more. */
  lemma {:induction false} ScanFromBreaks(s: Scanner, eol: string)
    requires eol != [] && forall i :: 0 <= i < |eol| ==> IsBreak(eol[i])
    ensures ScanFrom(s, eol) == if s.buffer != [] then Scanner(s.lines + [s.buffer], "") else s
  {
    var eol' := eol[..|eol| - 1];
    if eol' != [] {
      ScanFromBreaks(s, eol');
    }
  }

  /** Nothing is handed over until a line break arrives: characters after
      the last break change only the buffer. */
  lemma ScanPending(input: string, tail: string)
    requires NoBreak(tail)
    ensures Scan(input + tail) == Scanner(Scan(input).lines, Scan(input).buffer + tail)
  {
    ScanFromAppend(Scanner([], ""), input, tail);
    ScanFromWord(Scan(input), tail);
  }

  /** The host's lines come back as they were sent: lines without breaks,
      each followed by one or more line breaks (`'\n'` from the host
      script, `"\r\n"` from a terminal), are handed over one for one. */
  lemma {:induction false} ScanFramed(lines: seq<string>, eol: string)
    requires forall i :: 0 <= i < |lines| ==> lines[i] != [] && NoBreak(lines[i])
    requires eol != [] && forall i :: 0 <= i < |eol| ==> IsBreak(eol[i])
    ensures Scan(Framed(lines, eol)) == Scanner(lines, "")
  {
    if lines != [] {
      var init, l := lines[..|lines| - 1], lines[|lines| - 1];
      ScanFramed(init, eol);
      var f, s0 := Framed(init, eol), Scanner([], "");
      assert Framed(lines, eol) == f + l + eol;
      ScanFromAppend(s0, f, l);
      ScanFromWord(Scanner(init, ""), l);
      assert "" + l == l;
      assert ScanFrom(s0, f + l) == Scanner(init, l);
      ScanFromAppend(s0, f + l, eol);
      ScanFromBreaks(Scanner(init, l), eol);
      SnocSplit(lines);
    }
  }

  lemma SnocSplit<T>(xs: seq<T>)
    requires xs != []
    ensures xs[..|xs| - 1] + [xs[|xs| - 1]] == xs
  {
  }

  /** "X\r\n" is one line, so one reply; "\n\n" is none. */
  lemma LineExamples()
    ensures Scan("X\r\n") == Scanner(["X"], "")
    ensures Scan("\n\n") == Scanner([], "")
  {
    assert Framed(["X"], "\r\n") == "X\r\n" by {
      assert ["X"][..0] == [];
    }
    ScanFramed(["X"], "\r\n");
    ScanFromBreaks(Scanner([], ""), "\n\n");
  }
}
