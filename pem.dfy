/** `pem(data, header)` of crypto.ts: the base64 text of `data`, cut into lines of 64
    characters, between `-----BEGIN <HEADER>-----` and `-----END <HEADER>-----` markers
    (the textual encoding of section 2 of RFC 7468). */
module PemText {
  import opened Asn

  /** The characters JavaScript's regular-expression `.` does not match. */
  predicate IsLineTerminator(c: char) {
    c == '\n' || c == '\r' || c == '\U{2028}' || c == '\U{2029}'
  }

  predicate NoLineBreaks(s: string) {
    forall i :: 0 <= i < |s| ==> !IsLineTerminator(s[i])
  }

  /** `s.replace(/(.{64})/g, "$1\n")`: scanning left to right, every run of 64 characters
      without a line terminator is followed by a newline; where no such run starts, the
      scan moves on by one character. */
  function Wrap64(s: string): (r: string)
    ensures NoLineBreaks(s) ==> |r| == |s| + |s| / 64
    decreases |s|
  {
    if |s| < 64 then s
    else if NoLineBreaks(s[..64]) then s[..64] + "\n" + Wrap64(s[64..])
    else [s[0]] + Wrap64(s[1..])
  }

  function UpperChar(c: char): char {
    if 'a' <= c <= 'z' then (c as int - 32) as char else c
  }

  /** `toUpperCase`, for the ASCII letters. */
  function ToUpper(s: string): string {
    seq(|s|, i requires 0 <= i < |s| => UpperChar(s[i]))
  }

  function BeginMarker(header: string): string {
    "-----BEGIN " + ToUpper(header) + "-----"
  }

  function EndMarker(header: string): string {
    "-----END " + ToUpper(header) + "-----"
  }

  /** The PEM template applied to an already base64-encoded payload. */
  function PemTemplate(b64: string, header: string): (r: string)
    ensures BeginMarker(header) + "\n" <= r
    ensures var tail := "\n" + EndMarker(header);
      |tail| <= |r| && r[|r| - |tail|..] == tail
  {
    var begin, body, end := BeginMarker(header) + "\n", Wrap64(b64), "\n" + EndMarker(header);
    ConcatEnds(begin, body, end);
    begin + body + end
  }

  /** `pem(data, header)`, with the base64 encoder supplied by the caller. */
  function Pem(base64: Bytes -> string, data: Bytes, header: string): (r: string)
    ensures BeginMarker(header) + "\n" <= r
    ensures var tail := "\n" + EndMarker(header);
      |tail| <= |r| && r[|r| - |tail|..] == tail
  {
    PemTemplate(base64(data), header)
  }

  lemma ConcatEnds(a: string, m: string, e: string)
    ensures a <= a + m + e
    ensures (a + m + e)[|a + m + e| - |e|..] == e
  {
  }

  /** The text with every newline character deleted. */
  function StripNewlines(s: string): string {
    if s == [] then []
    else if s[0] == '\n' then StripNewlines(s[1..])
    else [s[0]] + StripNewlines(s[1..])
  }

  /** Splitting a text at its newline characters, as `split("\n")` does: a text with
      k newlines has k + 1 lines, the last one possibly empty. */
  function Lines(t: string): (r: seq<string>)
    ensures |r| >= 1
  {
    if t == [] then [""]
    else if t[0] == '\n' then [""] + Lines(t[1..])
    else var rest := Lines(t[1..]); [[t[0]] + rest[0]] + rest[1..]
  }

  /** Joining lines with newline characters; the inverse of `Lines`. */
  function Join(ls: seq<string>): string
    requires |ls| >= 1
  {
    if |ls| == 1 then ls[0] else ls[0] + "\n" + Join(ls[1..])
  }

  lemma {:induction false} StripConcat(a: string, b: string)
    ensures StripNewlines(a + b) == StripNewlines(a) + StripNewlines(b)
    decreases |a|
  {
    if a != [] {
      assert (a + b)[0] == a[0];
      assert (a + b)[1..] == a[1..] + b;
      StripConcat(a[1..], b);
    } else {
      assert a + b == b;
    }
  }

  lemma {:induction false} StripNoNewline(s: string)
    requires '\n' !in s
    ensures StripNewlines(s) == s
    decreases |s|
  {
    if s != [] {
      assert s[0] != '\n';
      StripNoNewline(s[1..]);
    }
  }

  lemma StripAroundNewline(a: string, b: string)
    ensures StripNewlines(a + "\n" + b) == StripNewlines(a) + StripNewlines(b)
  {
    StripConcat(a + "\n", b);
    StripConcat(a, "\n");
    assert StripNewlines("\n") == [];
  }

  /** Wrapping only inserts newlines: deleting all of them from the wrapped text gives
      the same as deleting them from the input. */
  lemma {:induction false} StripWrap(s: string)
    ensures StripNewlines(Wrap64(s)) == StripNewlines(s)
    decreases |s|
  {
    if |s| < 64 {
    } else {
      var w := Wrap64(s);
      if NoLineBreaks(s[..64]) {
        var head, tail := s[..64], s[64..];
        assert w == head + "\n" + Wrap64(tail);
        assert s == head + tail;
        StripWrap(tail);
        StripAroundNewline(head, Wrap64(tail));
        StripConcat(head, tail);
      } else {
        var tail := s[1..];
        assert w == [s[0]] + Wrap64(tail);
        assert s == [s[0]] + tail;
        StripWrap(tail);
        StripConcat([s[0]], Wrap64(tail));
        StripConcat([s[0]], tail);
      }
    }
  }

  /** The payload of a PEM body is recovered by deleting its newlines: for base64 text,
      which contains no newline, this is exactly the input. */
  lemma PemBodyRoundTrip(b64: string)
    requires '\n' !in b64
    ensures StripNewlines(Wrap64(b64)) == b64
  {
    StripWrap(b64);
    StripNoNewline(b64);
  }

  lemma {:induction false} LinesNoNewline(s: string)
    requires '\n' !in s
    ensures Lines(s) == [s]
    decreases |s|
  {
    if s != [] {
      assert s[0] != '\n';
      LinesNoNewline(s[1..]);
      assert s == [s[0]] + s[1..];
    }
  }

  lemma {:induction false} LinesConcat(a: string, b: string)
    ensures Lines(a + "\n" + b) == Lines(a) + Lines(b)
    decreases |a|
  {
    if a == [] {
      assert a + "\n" + b == "\n" + b;
      assert ("\n" + b)[1..] == b;
    } else {
      assert (a + "\n" + b)[0] == a[0];
      assert (a + "\n" + b)[1..] == a[1..] + "\n" + b;
      LinesConcat(a[1..], b);
    }
  }

  lemma JoinNewline(ls: seq<string>)
    requires |ls| >= 1
    ensures Join([""] + ls) == "\n" + Join(ls)
  {
    assert ([""] + ls)[1..] == ls;
  }

  lemma JoinPrepend(c: char, head: string, tail: seq<string>)
    ensures Join([[c] + head] + tail) == [c] + Join([head] + tail)
  {
    if tail != [] {
      assert ([[c] + head] + tail)[1..] == tail;
      assert ([head] + tail)[1..] == tail;
    }
  }

  /** Joining the lines of a text with newlines rebuilds the text. */
  lemma {:induction false} JoinLines(t: string)
    ensures Join(Lines(t)) == t
    decreases |t|
  {
    if t != [] {
      JoinLines(t[1..]);
      assert t == [t[0]] + t[1..];
      if t[0] == '\n' {
        JoinNewline(Lines(t[1..]));
      } else {
        var rest := Lines(t[1..]);
        assert rest == [rest[0]] + rest[1..];
        JoinPrepend(t[0], rest[0], rest[1..]);
      }
    }
  }

  /** No line holds a newline. */
  lemma {:induction false} LinesAreNewlineFree(t: string)
    ensures forall k :: 0 <= k < |Lines(t)| ==> '\n' !in Lines(t)[k]
    decreases |t|
  {
    if t != [] {
      LinesAreNewlineFree(t[1..]);
      var rest := Lines(t[1..]);
      if t[0] != '\n' {
        assert Lines(t)[0] == [t[0]] + rest[0];
        assert forall k :: 1 <= k < |Lines(t)| ==> Lines(t)[k] == rest[k];
      }
    }
  }

  /** `Lines` and `Join` are inverse: no line holds a newline, and joining the lines
      with newlines rebuilds the text. */
  lemma LinesJoin(t: string)
    ensures Join(Lines(t)) == t
    ensures forall k :: 0 <= k < |Lines(t)| ==> '\n' !in Lines(t)[k]
  {
    JoinLines(t);
    LinesAreNewlineFree(t);
  }

  /** One step of wrapping a text without line terminators: its first 64 characters
      form the first line. */
  lemma WrapFirstLine(s: string)
    requires NoLineBreaks(s) && |s| >= 64
    ensures NoLineBreaks(s[64..])
    ensures Lines(Wrap64(s)) == [s[..64]] + Lines(Wrap64(s[64..]))
  {
    var head, tail := s[..64], s[64..];
    assert NoLineBreaks(head);
    assert Wrap64(s) == head + "\n" + Wrap64(tail);
    assert NoLineBreaks(tail) by {
      forall i | 0 <= i < |tail| ensures !IsLineTerminator(tail[i]) {
        assert tail[i] == s[64 + i];
      }
    }
    assert '\n' !in head;
    LinesConcat(head, Wrap64(tail));
    LinesNoNewline(head);
  }

  /** The text cut into 64-character pieces, the last piece holding what remains. */
  function Chunks(s: string): (r: seq<string>)
    decreases |s|
  {
    if |s| < 64 then [s] else [s[..64]] + Chunks(s[64..])
  }

  /** Concatenation of a list of texts. */
  function Flatten(ts: seq<string>): string {
    if ts == [] then [] else ts[0] + Flatten(ts[1..])
  }

  lemma {:induction false} ChunksShape(s: string)
    ensures var cs := Chunks(s);
      && |cs| == |s| / 64 + 1
      && Flatten(cs) == s
      && (forall k :: 0 <= k < |cs| - 1 ==> |cs[k]| == 64)
      && |cs[|cs| - 1]| == |s| % 64
    decreases |s|
  {
    if |s| < 64 {
      assert Flatten(Chunks(s)) == s + Flatten([]);
    } else {
      var tail := s[64..];
      ChunksShape(tail);
      var cs, rs := Chunks(s), Chunks(tail);
      assert cs[1..] == rs;
      assert s == s[..64] + tail;
      assert |tail| / 64 + 1 == |s| / 64 && |tail| % 64 == |s| % 64;
      forall k | 1 <= k < |cs| - 1 ensures |cs[k]| == 64 {
        assert cs[k] == rs[k - 1];
      }
    }
  }

  /** Wrapping a text without line terminators produces exactly its 64-character pieces
      as lines. */
  lemma {:induction false} WrapIsChunks(s: string)
    requires NoLineBreaks(s)
    ensures Lines(Wrap64(s)) == Chunks(s)
    decreases |s|
  {
    if |s| < 64 {
      assert '\n' !in s;
      LinesNoNewline(s);
    } else {
      WrapFirstLine(s);
      WrapIsChunks(s[64..]);
    }
  }

  /** The lines of a wrapped text without line terminators: |s| / 64 + 1 lines which
      concatenate to the input; every line but the last has 64 characters and the last
      has |s| % 64, so it is empty exactly when |s| is a multiple of 64. */
  lemma WrapLines(s: string)
    requires NoLineBreaks(s)
    ensures var ls := Lines(Wrap64(s));
      && |ls| == |s| / 64 + 1
      && Flatten(ls) == s
      && (forall k :: 0 <= k < |ls| - 1 ==> |ls[k]| == 64)
      && |ls[|ls| - 1]| == |s| % 64
      && (ls[|ls| - 1] == [] <==> |s| % 64 == 0)
  {
    WrapIsChunks(s);
    ChunksShape(s);
  }

  /** A base64 payload whose length is a positive multiple of 64 leaves an empty line
      before the END marker. */
  lemma {:induction false} EmptyLineBeforeEnd(b64: string, header: string)
    requires NoLineBreaks(b64)
    requires |b64| > 0 && |b64| % 64 == 0
    ensures var e := "\n\n" + EndMarker(header);
      var r := PemTemplate(b64, header);
      |e| <= |r| && r[|r| - |e|..] == e
  {
    WrapEndsWithNewline(b64);
    var w := Wrap64(b64);
    var r := PemTemplate(b64, header);
    var e := "\n\n" + EndMarker(header);
    assert w == w[..|w| - 1] + "\n";
    assert r == BeginMarker(header) + "\n" + w[..|w| - 1] + e;
  }

  lemma {:induction false} WrapEndsWithNewline(s: string)
    requires NoLineBreaks(s)
    requires |s| > 0 && |s| % 64 == 0
    ensures |Wrap64(s)| > 0 && Wrap64(s)[|Wrap64(s)| - 1] == '\n'
    decreases |s|
  {
    var tail := s[64..];
    assert NoLineBreaks(s[..64]);
    assert NoLineBreaks(tail) by {
      forall i | 0 <= i < |tail| ensures !IsLineTerminator(tail[i]) {
        assert tail[i] == s[64 + i];
      }
    }
    if |tail| > 0 {
      WrapEndsWithNewline(tail);
    }
  }

  lemma {:induction false} UpperNoNewline(h: string)
    requires '\n' !in h
    ensures '\n' !in ToUpper(h)
  {
    forall i | 0 <= i < |h| ensures ToUpper(h)[i] != '\n' {
      assert h[i] != '\n';
    }
  }

  /** A PEM text splits into the BEGIN marker, the lines of the wrapped payload and the
      END marker. */
  lemma PemTextLines(b64: string, header: string)
    requires '\n' !in header
    ensures Lines(PemTemplate(b64, header)) == [BeginMarker(header)] + Lines(Wrap64(b64)) + [EndMarker(header)]
  {
    UpperNoNewline(header);
    var b, w, e := BeginMarker(header), Wrap64(b64), EndMarker(header);
    assert '\n' !in b;
    assert '\n' !in e;
    LinesConcat(b, w + "\n" + e);
    LinesConcat(w, e);
    assert PemTemplate(b64, header) == b + "\n" + (w + "\n" + e);
    LinesNoNewline(b);
    LinesNoNewline(e);
  }

  /** The lines of a PEM text: the BEGIN marker, the payload's 64-character pieces, the END
      marker, both markers carrying the same upper-cased header. */
  lemma PemLines(b64: string, header: string)
    requires NoLineBreaks(b64)
    requires '\n' !in header
    ensures var ls := Lines(PemTemplate(b64, header));
      && |ls| == |b64| / 64 + 3
      && ls[0] == "-----BEGIN " + ToUpper(header) + "-----"
      && ls[|ls| - 1] == "-----END " + ToUpper(header) + "-----"
      && (forall k :: 1 <= k < |ls| - 2 ==> |ls[k]| == 64)
      && |ls[|ls| - 2]| == |b64| % 64
      && ls[1..|ls| - 1] == Chunks(b64)
  {
    PemTextLines(b64, header);
    WrapLines(b64);
    WrapIsChunks(b64);
    var ls, ws := Lines(PemTemplate(b64, header)), Lines(Wrap64(b64));
    assert ls[1..|ls| - 1] == ws;
    assert forall k :: 1 <= k < |ls| - 1 ==> ls[k] == ws[k - 1];
  }
}
