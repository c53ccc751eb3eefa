/** Token usage read out of a response body, whole or captured by its tail. */
module Usage {
  import opened Capture
  import opened Wrappers

  const TWO_64 := 0x1_0000_0000_0000_0000

  type uint64 = x: int | 0 <= x < TWO_64

  datatype Field = PromptTokens | CompletionTokens | InputTokens | OutputTokens | TotalTokens

  /** The usage fields one event sets. */
  type Patch = Field -> Option<uint64>

  type Best = Field -> uint64

  /** Space trimming and JSON decoding, of which nothing more is known. `usage` is what an event sets, if it decodes at all. */
  datatype Codec = Codec(trim: Bytes -> Bytes, usage: Bytes -> Option<Patch>)

  const NEWLINE: byte := 10

  const DATA: Bytes := [100, 97, 116, 97, 58]

  /** The pieces between newlines; there is always at least one. */
  function Lines(s: Bytes): (r: seq<Bytes>)
    ensures r != []
  {
    if s == [] then [[]]
    else
      var rest := Lines(s[1..]);
      if s[0] == NEWLINE then [[]] + rest else Prepend(s[0], rest)
  }

  /** Lengthens the first line by one byte. */
  function Prepend(x: byte, lines: seq<Bytes>): (r: seq<Bytes>)
    requires lines != []
    ensures |r| == |lines|
  {
    [[x] + lines[0]] + lines[1..]
  }

  predicate HasPrefix(s: Bytes, p: Bytes) {
    |p| <= |s| && s[..|p|] == p
  }

  /** What a line sets, if it is a data line that decodes. */
  function LineUsage(c: Codec, line: Bytes): Option<Patch> {
    var trimmed := c.trim(line);
    if HasPrefix(trimmed, DATA) then c.usage(c.trim(trimmed[|DATA|..])) else None
  }

  /** A later value replaces an earlier one, field by field. */
  function Merge(best: Best, patch: Option<Patch>): Best {
    if patch.None? then best
    else (f: Field) => if patch.value(f).Some? then patch.value(f).value else best(f)
  }

  const ZERO: Best := (f: Field) => 0

  /** Input, output and total tokens; the older names stand in for the newer ones, and the sum for the total. */
  function Totals(best: Best): (uint64, uint64, uint64) {
    var input := if best(InputTokens) == 0 then best(PromptTokens) else best(InputTokens);
    var output := if best(OutputTokens) == 0 then best(CompletionTokens) else best(OutputTokens);
    (input, output, if best(TotalTokens) == 0 then (input + output) % TWO_64 else best(TotalTokens))
  }

  /** The value of a field in the last line that sets it. */
  function LastSet(c: Codec, lines: seq<Bytes>, f: Field): Option<uint64> {
    if lines == [] then None
    else
      var usage := LineUsage(c, lines[|lines| - 1]);
      if usage.Some? && usage.value(f).Some? then usage.value(f) else LastSet(c, lines[..|lines| - 1], f)
  }

  /** The body as a whole counts as the event before all lines. */
  function FieldOf(c: Codec, body: Bytes, f: Field): uint64 {
    var last := LastSet(c, Lines(body), f);
    if last.Some? then last.value
    else
      var whole := c.usage(body);
      if whole.Some? && whole.value(f).Some? then whole.value(f).value else 0
  }

  function Extracted(c: Codec, body: Bytes): (uint64, uint64, uint64) {
    Totals((f: Field) => FieldOf(c, body, f))
  }

  lemma TotalsSame(a: Best, b: Best)
    requires forall f :: a(f) == b(f)
    ensures Totals(a) == Totals(b)
  {
  }

  method Split(s: Bytes) returns (lines: seq<Bytes>)
    ensures lines == Lines(s)
  {
    lines := [[]];
    var i := |s|;
    while i > 0
      invariant 0 <= i <= |s|
      invariant lines == Lines(s[i..])
    {
      i := i - 1;
      assert s[i..][1..] == s[i + 1..];
      lines := if s[i] == NEWLINE then [[]] + lines else Prepend(s[i], lines);
    }
    assert s[0..] == s;
  }

  /** Scans the body for events and keeps, field by field, what the last of them says. */
  method ExtractUsage(c: Codec, body: Bytes) returns (input: uint64, output: uint64, total: uint64)
    ensures (input, output, total) == Extracted(c, body)
  {
    var best := Merge(ZERO, c.usage(body));
    ghost var first := best;
    var lines := Split(body);
    var i := 0;
    while i < |lines|
      invariant 0 <= i <= |lines|
      invariant forall f :: best(f) == (var last := LastSet(c, lines[..i], f); if last.Some? then last.value else first(f))
    {
      var line := c.trim(lines[i]);
      assert lines[..i + 1][..i] == lines[..i];
      if HasPrefix(line, DATA) {
        best := Merge(best, c.usage(c.trim(line[|DATA|..])));
      }
      i := i + 1;
    }
    assert lines[..i] == lines;
    TotalsSame(best, (f: Field) => FieldOf(c, body, f));
    input := if best(InputTokens) == 0 then best(PromptTokens) else best(InputTokens);
    output := if best(OutputTokens) == 0 then best(CompletionTokens) else best(OutputTokens);
    total := if best(TotalTokens) == 0 then (input + output) % TWO_64 else best(TotalTokens);
  }

  // ---------------------------------------------------------------------------------------------
  // What the usage of a body is, in full
  // ---------------------------------------------------------------------------------------------

  /** The lines put back together with a newline between each two. */
  function Rejoined(lines: seq<Bytes>): Bytes
    requires lines != []
  {
    if |lines| == 1 then lines[0] else lines[0] + [10] + Rejoined(lines[1..])
  }

  /** The lines are what lies between the newlines: they hold none, and with them they make up the body again. */
  lemma {:induction false} LinesAre(s: Bytes)
    ensures Rejoined(Lines(s)) == s
    ensures forall i :: 0 <= i < |Lines(s)| ==> 10 !in Lines(s)[i]
  {
    if s != [] {
      LinesAre(s[1..]);
      var rest := Lines(s[1..]);
      assert s == [s[0]] + s[1..];
      if s[0] == 10 {
        assert ([[]] + rest)[1..] == rest;
        assert Rejoined(Lines(s)) == [] + [10] + Rejoined(rest);
      } else {
        RejoinedPrepend(s[0], rest);
      }
    }
  }

  lemma RejoinedPrepend(x: byte, lines: seq<Bytes>)
    requires lines != []
    ensures Rejoined(Prepend(x, lines)) == [x] + Rejoined(lines)
  {
    if |lines| > 1 {
      assert Prepend(x, lines)[1..] == lines[1..];
      assert [x] + lines[0] + [10] + Rejoined(lines[1..]) == [x] + (lines[0] + [10] + Rejoined(lines[1..]));
    }
  }

  /** The line is a data line: trimmed, it begins with the five bytes of "data:". */
  predicate IsData(c: Codec, line: Bytes) {
    |c.trim(line)| >= 5 && c.trim(line)[..5] == [100, 97, 116, 97, 58]
  }

  /** The text of a data line's event. */
  function EventOf(c: Codec, line: Bytes): Bytes
    requires IsData(c, line)
  {
    c.trim(c.trim(line)[5..])
  }

  predicate Says(c: Codec, text: Bytes, f: Field, v: uint64) {
    c.usage(text).Some? && c.usage(text).value(f) == Some(v)
  }

  predicate Silent(c: Codec, text: Bytes, f: Field) {
    c.usage(text).None? || c.usage(text).value(f).None?
  }

  /** From line `j` on no data line says anything about the field. */
  predicate SilentFrom(c: Codec, lines: seq<Bytes>, j: nat, f: Field) {
    forall k :: j <= k < |lines| && IsData(c, lines[k]) ==> Silent(c, EventOf(c, lines[k]), f)
  }

  predicate LastSaidAt(c: Codec, lines: seq<Bytes>, j: nat, f: Field, v: uint64) {
    j < |lines| && IsData(c, lines[j]) && Says(c, EventOf(c, lines[j]), f, v) && SilentFrom(c, lines, j + 1, f)
  }

  /** The field reads `v`: as the last data line to say something about it says, else as the body decoded whole says, else 0. */
  ghost predicate Reads(c: Codec, body: Bytes, f: Field, v: uint64) {
    || (exists j: nat :: LastSaidAt(c, Lines(body), j, f, v))
    || (SilentFrom(c, Lines(body), 0, f) && (Says(c, body, f, v) || (Silent(c, body, f) && v == 0)))
  }

  lemma {:induction false} LastSetMeans(c: Codec, lines: seq<Bytes>, f: Field) returns (j: nat)
    ensures if LastSet(c, lines, f).Some? then LastSaidAt(c, lines, j, f, LastSet(c, lines, f).value) else SilentFrom(c, lines, 0, f)
  {
    if lines == [] {
      j := 0;
    } else {
      var n := |lines| - 1;
      j := LastSetMeans(c, lines[..n], f);
      assert forall k :: 0 <= k < n ==> lines[..n][k] == lines[k];
      if LineUsage(c, lines[n]).Some? && LineUsage(c, lines[n]).value(f).Some? {
        j := n;
      }
    }
  }

  lemma FieldReads(c: Codec, body: Bytes, f: Field)
    ensures Reads(c, body, f, FieldOf(c, body, f))
  {
    var j := LastSetMeans(c, Lines(body), f);
  }

  lemma ReadsOnce(c: Codec, body: Bytes, f: Field, v: uint64, w: uint64)
    requires Reads(c, body, f, v) && Reads(c, body, f, w)
    ensures v == w
  {
    var lines := Lines(body);
    if j: nat, k: nat :| LastSaidAt(c, lines, j, f, v) && LastSaidAt(c, lines, k, f, w) {
      assert j == k;
    }
  }

  /**
   The usage of a body in full. Each field reads as the last event to mention it says, where the body as a whole is the
   event before all lines. Input is the newer name of the count, or the older where the newer reads 0; so is output;
   and the total is the sum of both, within 64 bits, where it reads 0 itself.
   */
  lemma UsageMeans(c: Codec, body: Bytes, v: Best)
    requires forall f :: Reads(c, body, f, v(f))
    ensures var input := if v(InputTokens) != 0 then v(InputTokens) else v(PromptTokens);
            var output := if v(OutputTokens) != 0 then v(OutputTokens) else v(CompletionTokens);
            Extracted(c, body) ==
            (input, output, if v(TotalTokens) != 0 then v(TotalTokens) else (input + output) % 0x1_0000_0000_0000_0000)
  {
    forall f ensures FieldOf(c, body, f) == v(f) {
      FieldReads(c, body, f);
      ReadsOnce(c, body, f, FieldOf(c, body, f), v(f));
    }
    hide FieldOf, Reads;
  }

  function Or0(x: Option<uint64>): uint64 {
    if x.Some? then x.value else 0
  }

  /** A body without data lines, such as a plain JSON response, has the usage it decodes to as a whole. */
  lemma PlainBodyUsage(c: Codec, body: Bytes, p: Patch)
    requires forall i :: 0 <= i < |Lines(body)| ==> !IsData(c, Lines(body)[i])
    requires c.usage(body) == Some(p)
    ensures var input := if Or0(p(InputTokens)) != 0 then Or0(p(InputTokens)) else Or0(p(PromptTokens));
            var output := if Or0(p(OutputTokens)) != 0 then Or0(p(OutputTokens)) else Or0(p(CompletionTokens));
            Extracted(c, body) ==
            (input, output, if Or0(p(TotalTokens)) != 0 then Or0(p(TotalTokens)) else (input + output) % 0x1_0000_0000_0000_0000)
  {
    var v: Best := (f: Field) => Or0(p(f));
    forall f ensures Reads(c, body, f, v(f)) {
      assert SilentFrom(c, Lines(body), 0, f);
    }
    UsageMeans(c, body, v);
  }

  /** A stream with a single data line, which does not decode as a whole, has the usage of that line's event. */
  lemma SingleEventUsage(c: Codec, body: Bytes, j: nat, p: Patch)
    requires j < |Lines(body)| && IsData(c, Lines(body)[j]) && c.usage(EventOf(c, Lines(body)[j])) == Some(p)
    requires forall i :: 0 <= i < |Lines(body)| && i != j ==> !IsData(c, Lines(body)[i])
    requires c.usage(body).None?
    ensures var input := if Or0(p(InputTokens)) != 0 then Or0(p(InputTokens)) else Or0(p(PromptTokens));
            var output := if Or0(p(OutputTokens)) != 0 then Or0(p(OutputTokens)) else Or0(p(CompletionTokens));
            Extracted(c, body) ==
            (input, output, if Or0(p(TotalTokens)) != 0 then Or0(p(TotalTokens)) else (input + output) % 0x1_0000_0000_0000_0000)
  {
    var v: Best := (f: Field) => Or0(p(f));
    forall f ensures Reads(c, body, f, v(f)) {
      if p(f).Some? {
        assert LastSaidAt(c, Lines(body), j, f, v(f));
      } else {
        assert SilentFrom(c, Lines(body), 0, f);
      }
    }
    UsageMeans(c, body, v);
  }

  // ---------------------------------------------------------------------------------------------
  // The tail is enough
  // ---------------------------------------------------------------------------------------------

  /** Two runs of lines of which the last line of the one continues in the first of the other. */
  function Join(a: seq<Bytes>, b: seq<Bytes>): seq<Bytes>
    requires a != [] && b != []
  {
    a[..|a| - 1] + [a[|a| - 1] + b[0]] + b[1..]
  }

  lemma JoinAfter(first: Bytes, a: seq<Bytes>, b: seq<Bytes>)
    requires a != [] && b != []
    ensures Join([first] + a, b) == [first] + Join(a, b)
  {
    assert ([first] + a)[..|a|] == [first] + a[..|a| - 1];
  }

  lemma JoinPrepend(x: byte, a: seq<Bytes>, b: seq<Bytes>)
    requires a != [] && b != []
    ensures Join(Prepend(x, a), b) == Prepend(x, Join(a, b))
  {
    if |a| == 1 {
      assert [x] + a[0] + b[0] == [x] + (a[0] + b[0]);
    } else {
      assert Prepend(x, a)[..|a| - 1] == [[x] + a[0]] + a[1..|a| - 1];
      assert a[..|a| - 1] == [a[0]] + a[1..|a| - 1];
    }
  }

  /** Cutting a stream anywhere cuts at most one line in two. */
  lemma {:induction false} LinesOfConcat(a: Bytes, b: Bytes)
    ensures Lines(a + b) == Join(Lines(a), Lines(b))
  {
    if a == [] {
      assert a + b == b && [] + Lines(b)[0] == Lines(b)[0];
    } else {
      assert (a + b)[1..] == a[1..] + b;
      LinesOfConcat(a[1..], b);
      JoinAfter([], Lines(a[1..]), Lines(b));
      JoinPrepend(a[0], Lines(a[1..]), Lines(b));
    }
  }

  /** The lines known to be whole in the last `limit` bytes: all but the first, unless the stream fits. */
  function WholeLines(s: Bytes, limit: nat): seq<Bytes> {
    if |s| <= limit then Lines(s) else Lines(Tail(s, limit))[1..]
  }

  /** The whole lines of the tail are the last lines of the stream. */
  lemma TailEndsInTheSameLines(s: Bytes, limit: nat)
    ensures exists before: seq<Bytes> :: Lines(s) == before + WholeLines(s, limit)
  {
    var t := Tail(s, limit);
    if |s| <= limit {
      assert Lines(s) == [] + WholeLines(s, limit);
    } else {
      var head := s[..|s| - limit];
      assert s == head + t;
      LinesOfConcat(head, t);
      var lh := Lines(head);
      var before := lh[..|lh| - 1] + [lh[|lh| - 1] + Lines(t)[0]];
      assert Lines(s) == before + WholeLines(s, limit);
    }
  }

  lemma {:induction false} LastSetConcat(c: Codec, a: seq<Bytes>, b: seq<Bytes>, f: Field)
    ensures LastSet(c, a + b, f) == if LastSet(c, b, f).Some? then LastSet(c, b, f) else LastSet(c, a, f)
  {
    if b == [] {
      assert a + b == a;
    } else {
      var n := |b| - 1;
      LastSetConcat(c, a, b[..n], f);
      assert (a + b)[..|a| + n] == a + b[..n];
    }
  }

  predicate Sets(patch: Option<Patch>, f: Field) {
    patch.Some? && patch.value(f).Some?
  }

  /** A field that a whole line of the tail sets is read the same from the tail as from the stream, whatever the cut line holds. */
  lemma FieldFromTail(c: Codec, s: Bytes, limit: nat, f: Field)
    requires LastSet(c, WholeLines(s, limit), f).Some?
    ensures FieldOf(c, Tail(s, limit), f) == FieldOf(c, s, f) == LastSet(c, WholeLines(s, limit), f).value
  {
    TailEndsInTheSameLines(s, limit);
    var whole := WholeLines(s, limit);
    var before :| Lines(s) == before + whole;
    LastSetConcat(c, before, whole, f);
    if |s| > limit {
      var lt := Lines(Tail(s, limit));
      assert lt == [lt[0]] + whole;
      LastSetConcat(c, [lt[0]], whole, f);
    }
  }

  /** Nothing outside the whole lines of the tail sets `f`: no line of the stream, neither body as a whole, and not the cut line. */
  predicate Unset(c: Codec, s: Bytes, limit: nat, f: Field) {
    var t := Tail(s, limit);
    && LastSet(c, Lines(s), f).None? && !Sets(c.usage(s), f)
    && !Sets(c.usage(t), f) && !Sets(LineUsage(c, Lines(t)[0]), f)
  }

  /**
   The tail suffices: when the stream fits, or when every field is either set by a whole line of the tail or set
   by nothing at all, the usage read from the last `limit` bytes is the usage of the whole stream.
   */
  lemma TailSuffices(c: Codec, s: Bytes, limit: nat)
    requires |s| > limit ==> forall f :: LastSet(c, WholeLines(s, limit), f).Some? || Unset(c, s, limit, f)
    ensures Extracted(c, Tail(s, limit)) == Extracted(c, s)
  {
    var t := Tail(s, limit);
    forall f ensures FieldOf(c, t, f) == FieldOf(c, s, f) {
      if |s| <= limit {
      } else if LastSet(c, WholeLines(s, limit), f).Some? {
        FieldFromTail(c, s, limit, f);
      } else {
        var lt := Lines(t);
        assert lt == [lt[0]] + WholeLines(s, limit);
        LastSetConcat(c, [lt[0]], WholeLines(s, limit), f);
        assert [lt[0]][..0] == [];
      }
    }
    TotalsSame((f: Field) => FieldOf(c, t, f), (f: Field) => FieldOf(c, s, f));
  }

  // ---------------------------------------------------------------------------------------------
  // What a tail tells about a stream that is gone
  // ---------------------------------------------------------------------------------------------

  /** The lines that lie whole inside a tail whose beginning is cut off. */
  function Inside(t: Bytes): seq<Bytes> {
    Lines(t)[1..]
  }

  /** A whole line of the tail sets the field. */
  predicate Told(c: Codec, t: Bytes, f: Field) {
    LastSet(c, Inside(t), f).Some?
  }

  predicate SetsTo(c: Codec, event: Bytes, f: Field, v: uint64) {
    && NEWLINE !in event
    && LineUsage(c, DATA + event).Some? && LineUsage(c, DATA + event).value(f) == Some(v)
  }

  /** A line that starts with some other byte is no data line, and each field has events that set it to two values, neither zero. */
  ghost predicate Speaks(c: Codec) {
    && (forall line: Bytes :: LineUsage(c, [120] + line).None?)
    && (forall f :: HasTwoEvents(c, f))
  }

  ghost predicate HasTwoEvents(c: Codec, f: Field) {
    exists a, b, v: uint64, w: uint64 :: SetsTo(c, a, f, v) && SetsTo(c, b, f, w) && v != w && v > 0 && w > 0
  }

  /** There are such codecs. */
  lemma SomeCodecSpeaks()
    ensures exists c :: Speaks(c)
  {
    var all := (v: uint64) => (f: Field) => Some(v);
    var c := Codec((b: Bytes) => b, (b: Bytes) => if b == [49] then Some(all(1)) else if b == [50] then Some(all(2)) else None);
    var one, two: Bytes := [49], [50];
    assert (DATA + one)[..5] == DATA && (DATA + one)[5..] == one;
    assert (DATA + two)[..5] == DATA && (DATA + two)[5..] == two;
    forall f ensures HasTwoEvents(c, f) {
      assert SetsTo(c, one, f, 1) && SetsTo(c, two, f, 2);
    }
    forall line: Bytes ensures LineUsage(c, [120] + line).None? {
      assert |line| >= 4 ==> ([120] + line)[..5][0] == 120;
    }
    assert Speaks(c);
  }

  /** A stream that begins with an event and then cuts a line of the tail. */
  function Headed(event: Bytes): Bytes {
    DATA + event + [NEWLINE] + [120]
  }

  lemma HeadedLines(event: Bytes, t: Bytes)
    requires NEWLINE !in event
    ensures Lines(Headed(event) + t) == [DATA + event, [120] + Lines(t)[0]] + Inside(t)
  {
    var first, x: Bytes := DATA + event, [120];
    var rest := [NEWLINE] + (x + t);
    assert Headed(event) + t == first + rest;
    NoNewline(first);
    NoNewline(x);
    assert rest[1..] == x + t;
    LinesOfConcat(x, t);
    LinesOfConcat(first, rest);
    assert Lines(rest) == [[]] + Lines(x + t);
    assert first + [] == first;
  }

  /** Before a tail that does not tell the field, the event at the head decides it. */
  lemma HeadDecides(c: Codec, event: Bytes, t: Bytes, f: Field, v: uint64)
    requires (forall line: Bytes :: LineUsage(c, [120] + line).None?) && SetsTo(c, event, f, v) && !Told(c, t, f)
    ensures FieldOf(c, Headed(event) + t, f) == v
  {
    HeadedLines(event, t);
    var head := [DATA + event, [120] + Lines(t)[0]];
    LastSetConcat(c, head, Inside(t), f);
    assert head[..1] == [DATA + event] && [DATA + event][..0] == [];
  }

  lemma TailOfHeaded(h: Bytes, t: Bytes)
    requires h != []
    ensures Tail(h + t, |t|) == t && WholeLines(h + t, |t|) == Inside(t)
  {
    assert (h + t)[|h|..] == t;
  }

  /** Whoever holds only the tail of a cut stream knows a field exactly when a whole line of the tail sets it. */
  lemma FieldKnownIff(c: Codec, t: Bytes, f: Field)
    requires Speaks(c)
    ensures (forall h: Bytes :: h != [] ==> FieldOf(c, Tail(h + t, |t|), f) == FieldOf(c, h + t, f)) <==> Told(c, t, f)
  {
    if Told(c, t, f) {
      forall h: Bytes | h != [] ensures FieldOf(c, Tail(h + t, |t|), f) == FieldOf(c, h + t, f) {
        TailOfHeaded(h, t);
        FieldFromTail(c, h + t, |t|, f);
      }
    } else {
      var a, b, v, w := TwoEvents(c, f);
      HeadDecides(c, a, t, f, v);
      HeadDecides(c, b, t, f, w);
      TailOfHeaded(Headed(a), t);
      TailOfHeaded(Headed(b), t);
    }
  }

  lemma TwoEvents(c: Codec, f: Field) returns (a: Bytes, b: Bytes, v: uint64, w: uint64)
    requires Speaks(c)
    ensures SetsTo(c, a, f, v) && SetsTo(c, b, f, w) && v != w && v > 0 && w > 0
  {
    assert HasTwoEvents(c, f);
    a, b, v, w :| SetsTo(c, a, f, v) && SetsTo(c, b, f, w) && v != w && v > 0 && w > 0;
  }

  /** The newer name of a count is told and settles it, or it is told to be zero and the older name is told too. */
  predicate CountTold(c: Codec, t: Bytes, newer: Field, older: Field) {
    Told(c, t, newer) && (LastSet(c, Inside(t), newer).value != 0 || Told(c, t, older))
  }

  /** The tail tells all three counts. Whoever holds the tail can check it. */
  predicate UsageTold(c: Codec, t: Bytes) {
    CountTold(c, t, InputTokens, PromptTokens) && CountTold(c, t, OutputTokens, CompletionTokens) && Told(c, t, TotalTokens)
  }

  lemma ToldIsKept(c: Codec, h: Bytes, t: Bytes, f: Field)
    requires h != [] && Told(c, t, f)
    ensures FieldOf(c, t, f) == FieldOf(c, h + t, f) == LastSet(c, Inside(t), f).value
  {
    TailOfHeaded(h, t);
    FieldFromTail(c, h + t, |t|, f);
  }

  lemma CountToldIsKept(c: Codec, h: Bytes, t: Bytes, newer: Field, older: Field)
    requires h != [] && CountTold(c, t, newer, older)
    ensures FieldOf(c, t, newer) == FieldOf(c, h + t, newer)
    ensures FieldOf(c, t, newer) == 0 ==> FieldOf(c, t, older) == FieldOf(c, h + t, older)
  {
    ToldIsKept(c, h, t, newer);
    if Told(c, t, older) {
      ToldIsKept(c, h, t, older);
    }
  }

  lemma ToldUsageIsKept(c: Codec, h: Bytes, t: Bytes)
    requires h != [] && UsageTold(c, t)
    ensures Extracted(c, t) == Extracted(c, h + t)
  {
    hide FieldOf, LastSet, Lines;
    CountToldIsKept(c, h, t, InputTokens, PromptTokens);
    CountToldIsKept(c, h, t, OutputTokens, CompletionTokens);
    ToldIsKept(c, h, t, TotalTokens);
  }

  /** A count that a tail does not tell comes out differently behind two different heads. */
  lemma CountDiffers(c: Codec, t: Bytes, newer: Field, older: Field) returns (g: Bytes, h: Bytes)
    requires Speaks(c) && !CountTold(c, t, newer, older)
    ensures g != [] && h != []
    ensures Count(c, g + t, newer, older) != Count(c, h + t, newer, older)
  {
    var f := if Told(c, t, newer) then older else newer;
    var a, b, v, w := TwoEvents(c, f);
    g, h := Headed(a), Headed(b);
    HeadDecides(c, a, t, f, v);
    HeadDecides(c, b, t, f, w);
    if Told(c, t, newer) {
      ToldIsKept(c, g, t, newer);
      ToldIsKept(c, h, t, newer);
    }
  }

  function Count(c: Codec, body: Bytes, newer: Field, older: Field): uint64 {
    if FieldOf(c, body, newer) == 0 then FieldOf(c, body, older) else FieldOf(c, body, newer)
  }

  lemma ExtractedIs(c: Codec, body: Bytes)
    ensures Extracted(c, body).0 == Count(c, body, InputTokens, PromptTokens)
    ensures Extracted(c, body).1 == Count(c, body, OutputTokens, CompletionTokens)
    ensures FieldOf(c, body, TotalTokens) != 0 ==> Extracted(c, body).2 == FieldOf(c, body, TotalTokens)
  {
  }

  /**
   Exactly when a tail suffices. The usage read from a tail is the usage of every stream it may have been cut from if
   and only if the whole lines of the tail tell the total and both counts.
   */
  lemma TailSufficesIff(c: Codec, t: Bytes)
    requires Speaks(c)
    ensures (forall h: Bytes :: h != [] ==> Extracted(c, Tail(h + t, |t|)) == Extracted(c, h + t)) <==> UsageTold(c, t)
  {
    forall h: Bytes | h != [] ensures Tail(h + t, |t|) == t {
      TailOfHeaded(h, t);
    }
    if UsageTold(c, t) {
      forall h: Bytes | h != [] ensures Extracted(c, Tail(h + t, |t|)) == Extracted(c, h + t) {
        ToldUsageIsKept(c, h, t);
      }
    } else {
      var g, h := UsageDiffers(c, t);
    }
  }

  lemma UsageDiffers(c: Codec, t: Bytes) returns (g: Bytes, h: Bytes)
    requires Speaks(c) && !UsageTold(c, t)
    ensures g != [] && h != [] && Extracted(c, g + t) != Extracted(c, h + t)
  {
    hide FieldOf, LastSet, Lines, Speaks, Extracted, CountTold;
    if !CountTold(c, t, InputTokens, PromptTokens) {
      g, h := CountDiffers(c, t, InputTokens, PromptTokens);
    } else if !CountTold(c, t, OutputTokens, CompletionTokens) {
      g, h := CountDiffers(c, t, OutputTokens, CompletionTokens);
    } else {
      g, h := TotalDiffers(c, t);
    }
    ExtractedIs(c, g + t);
    ExtractedIs(c, h + t);
  }

  lemma TotalDiffers(c: Codec, t: Bytes) returns (g: Bytes, h: Bytes)
    requires Speaks(c) && !Told(c, t, TotalTokens)
    ensures g != [] && h != []
    ensures FieldOf(c, g + t, TotalTokens) != FieldOf(c, h + t, TotalTokens)
    ensures FieldOf(c, g + t, TotalTokens) != 0 && FieldOf(c, h + t, TotalTokens) != 0
  {
    var a, b, v, w := TwoEvents(c, TotalTokens);
    g, h := Headed(a), Headed(b);
    HeadDecides(c, a, t, TotalTokens, v);
    HeadDecides(c, b, t, TotalTokens, w);
  }

  /**
   The usage recorded from a capture buffer, after the stream went by in any chunks, is always that of the tail. It is
   that of the whole stream when the stream fits, when the tail tells it, or when nothing outside the whole lines of
   the tail sets any field they leave open.
   */
  method UsageOfCapture(c: Codec, chunks: seq<Bytes>, limit: nat) returns (input: uint64, output: uint64, total: uint64)
    ensures (input, output, total) == Extracted(c, Tail(Concat(chunks), limit))
    ensures |Concat(chunks)| <= limit || UsageTold(c, Tail(Concat(chunks), limit))
            || (forall f :: LastSet(c, WholeLines(Concat(chunks), limit), f).Some? || Unset(c, Concat(chunks), limit, f))
            ==> (input, output, total) == Extracted(c, Concat(chunks))
  {
    var captured := CaptureTail(chunks, limit);
    input, output, total := ExtractUsage(c, captured);
    ghost var s := Concat(chunks);
    if |s| <= limit {
    } else if UsageTold(c, captured) {
      assert s == s[..|s| - limit] + captured;
      ToldUsageIsKept(c, s[..|s| - limit], captured);
    } else if forall f :: LastSet(c, WholeLines(s, limit), f).Some? || Unset(c, s, limit, f) {
      TailSuffices(c, s, limit);
    }
  }

  /** A codec that decodes one text and nothing else, to an event that sets the total. */
  function Only(event: Bytes, total: uint64): Codec {
    Codec((b: Bytes) => b, (b: Bytes) => if b == event then Some((f: Field) => if f == TotalTokens then Some(total) else None) else None)
  }

  /**
   The condition on the cut line is needed: whatever the text of an event, a line that merely ends in a data line
   is no event, but cut in the right place it is read as one.
   */
  lemma CutLineCanMislead(event: Bytes, total: uint64)
    requires event != [] && NEWLINE !in event && total > 0
    ensures var c, s := Only(event, total), [120] + DATA + event;
            && Extracted(c, s).2 == 0
            && Extracted(c, Tail(s, |s| - 1)).2 == total
  {
    hide LineUsage, Lines, HasPrefix, LastSet;
    var c, s, t := Only(event, total), [120] + DATA + event, DATA + event;
    assert s[1..] == t;
    CutLines(event, total);
    NoNewline(s);
    NoNewline(t);
    OneLine(c, s);
    OneLine(c, t);
    assert |t| != |event| && |s| != |event|;
  }

  lemma CutLines(event: Bytes, total: uint64)
    ensures LineUsage(Only(event, total), [120] + DATA + event) == None
    ensures LineUsage(Only(event, total), DATA + event) == Only(event, total).usage(event)
  {
    var s, t := [120] + DATA + event, DATA + event;
    assert t[5..] == event && t[..5] == DATA;
    assert s[..5][0] == 120 && DATA[0] == 100;
  }

  /** A body of one line has the fields of that line, or else of itself decoded whole. */
  lemma OneLine(c: Codec, s: Bytes)
    requires Lines(s) == [s]
    ensures forall f :: LastSet(c, Lines(s), f) ==
              if LineUsage(c, s).Some? && LineUsage(c, s).value(f).Some? then LineUsage(c, s).value(f) else None
  {
    assert [s][..0] == [];
  }

  lemma {:induction false} NoNewline(s: Bytes)
    requires forall i :: 0 <= i < |s| ==> s[i] != NEWLINE
    ensures Lines(s) == [s]
  {
    if s != [] {
      NoNewline(s[1..]);
      assert [s[0]] + s[1..] == s;
    }
  }
}
