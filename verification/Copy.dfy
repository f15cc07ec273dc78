/** push and pull: how a file travels through a here-document one way and through
    captured, byte-limited pod output the other way. */
module Copy {
  import opened Strings
  import opened Base64

  const MAX_COPY_BYTES := 700 * 1024
  const MAX_CAPTURED_BYTES := 1000 * 1024

  // ----------------------------------------------------------------- pull

  const BEGIN := "---KO-FILE-BEGIN---"
  const END := "---KO-FILE-END---"

  /** What the pull script prints: echo the first sentinel, base64 -w0 the file,
      end that line, echo the second sentinel. */
  function PullOutput(file: seq<Byte>): string {
    Framed(BEGIN, Encode(file), END)
  }

  function Framed(first: string, text: string, last: string): string {
    first + ['\n'] + text + ['\n'] + last + ['\n']
  }

  /** Captured logs are cut at a byte limit. */
  function Capture(output: string, limit: nat): string {
    if |output| <= limit then output else output[..limit]
  }

  /** extractPayload slices from the end of the first sentinel to the start of
      the second; when the two overlap the slice bounds cross and it panics. */
  datatype Extracted = Payload(text: string) | NoSentinels | Panics

  function ExtractPayload(logs: string): Extracted {
    var b, e := Index(logs, BEGIN), Index(logs, END);
    if b < 0 || e < 0 || e <= b then NoSentinels
    else if e < b + |BEGIN| then Panics
    else Payload(Trim(logs[b + |BEGIN|..e]))
  }

  /** Where the second sentinel starts in the pull output. */
  function EndAt(file: seq<Byte>): nat {
    |BEGIN| + |Encode(file)| + 2
  }

  /** What stands where in three framed lines. */
  lemma FramedLayout(first: string, text: string, last: string)
    ensures var out, n, m := Framed(first, text, last), |first|, |text|;
            && |out| == n + m + |last| + 3
            && (forall i :: 0 <= i < n ==> out[i] == first[i])
            && out[n] == '\n'
            && (forall i :: n + 1 <= i < n + 1 + m ==> out[i] == text[i - n - 1])
            && out[n + 1 + m] == '\n'
            && out[n + m + 2..n + m + 2 + |last|] == last
            && out[..n] == first
            && out[n..n + m + 2] == ['\n'] + text + ['\n']
  {
  }

  lemma SentinelShape()
    ensures |BEGIN| == 19 && |END| == 17
    ensures BEGIN[3] == 'K' && BEGIN[11] == 'B'
    ensures END[0] == '-' && END[1] == '-' && END[2] == '-' && END[11] == 'E'
    ensures forall i :: 0 <= i < 17 ==> END[i] != '\n'
  {
  }

  lemma Mismatch(s: string, pat: string, p: nat, k: nat)
    requires k < |pat| && p + k < |s| && s[p + k] != pat[k]
    ensures !OccursAt(s, pat, p)
  {
    if p + |pat| <= |s| {
      assert s[p..p + |pat|][k] == s[p + k];
    }
  }

  /** The second sentinel does not start anywhere before its place: not inside the
      first one, not across a line end, not inside the base64 text. */
  lemma NoEarlierEnd(file: seq<Byte>, p: nat)
    requires p < EndAt(file)
    ensures !OccursAt(PullOutput(file), END, p)
  {
    FramedLayout(BEGIN, Encode(file), END);
    SentinelShape();
    if p < 19 {
      NotInFirst(PullOutput(file), p);
    } else {
      EncodeAlphabet(file);
      assert 20 <= p < 20 + |Encode(file)| ==> Encode(file)[p - 20] in Encode(file);
      Mismatch(PullOutput(file), END, p, 0);
    }
  }

  /** Not inside the first sentinel's line. */
  lemma NotInFirst(out: string, p: nat)
    requires |out| >= 20 && out[..19] == BEGIN && out[19] == '\n' && p < 19
    ensures !OccursAt(out, END, p)
  {
    SentinelShape();
    assert out[3] == out[..19][3] && out[11] == out[..19][11];
    Mismatch(out, END, p, if p == 0 then 11 else if p <= 2 then 3 - p else 19 - p);
  }

  lemma TrimFramed(x: string)
    requires NoSpace(x)
    ensures Trim(['\n'] + x + ['\n']) == x
  {
    var s := ['\n'] + x + ['\n'];
    var t := x + ['\n'];
    assert s[1..] == t && t[..|x|] == x;
    if x == "" {
      assert t[1..] == "";
      assert TrimLeft(t) == TrimLeft("");
    } else {
      assert x[0] in x && x[|x| - 1] in x;
      assert TrimLeft(t) == t;
      assert TrimRight(t) == TrimRight(x) == x;
    }
  }

  lemma Base64HasNoSpace(s: string)
    requires Base64Text(s)
    ensures NoSpace(s)
  {
  }

  /** An occurrence in a prefix is an occurrence in the whole that ends there. */
  lemma OccursInPrefix(s: string, n: nat, pat: string, p: nat)
    requires n <= |s|
    ensures OccursAt(s[..n], pat, p) <==> OccursAt(s, pat, p) && p + |pat| <= n
  {
    if p + |pat| <= n {
      assert s[..n][p..p + |pat|] == s[p..p + |pat|];
    }
  }

  lemma IndexIs(s: string, pat: string, p: nat)
    requires p <= |s| && OccursAt(s, pat, p) && forall k :: 0 <= k < p ==> !OccursAt(s, pat, k)
    ensures Index(s, pat) == p
  {
  }

  lemma IndexMissing(s: string, pat: string)
    requires forall k :: 0 <= k <= |s| ==> !OccursAt(s, pat, k)
    ensures Index(s, pat) == -1
  {
  }

  /** Pod logs carry everything the script prints, errors included: other lines may
      come before the pull output, and others after it. */
  function Printed(noise: string, file: seq<Byte>, tail: string): string {
    noise + PullOutput(file) + tail
  }

  /** Neither sentinel starts in the noise, not even one that ends in the first
      sentinel proper. */
  predicate Quiet(noise: string) {
    forall k :: 0 <= k < |noise| ==> !OccursAt(noise + BEGIN, BEGIN, k) && !OccursAt(noise + BEGIN, END, k)
  }

  /** Where the end sentinel stops in all that is printed. */
  function EndOf(noise: string, file: seq<Byte>): nat {
    |noise| + EndAt(file) + |END|
  }

  lemma Middle(a: string, b: string, c: string, i: nat, j: nat)
    requires i <= j <= |b|
    ensures |a + b + c| >= |a| + j && (a + b + c)[|a| + i..|a| + j] == b[i..j]
  {
  }

  lemma SliceOfSlice(s: string, a: nat, b: nat, p: nat, q: nat)
    requires a <= b <= |s| && p <= q <= b - a
    ensures s[a..b][p..q] == s[a + p..a + q]
  {
    var x, y := s[a..b][p..q], s[a + p..a + q];
    forall i | 0 <= i < |x| ensures x[i] == y[i] {
      assert x[i] == s[a..b][p + i] == s[a + p + i];
    }
  }

  /** What stands where when three framed lines come between other text. */
  lemma FramedBetween(noise: string, first: string, text: string, last: string, tail: string, all: string, e: nat)
    requires all == noise + Framed(first, text, last) + tail && e == |noise| + |first| + |text| + 2
    ensures var out, n, f := Framed(first, text, last), |noise|, |first|;
            && e + |last| <= n + |out| <= |all|
            && all[n..n + |out|] == out
            && all[n..n + f] == first
            && all[n + f..e] == ['\n'] + text + ['\n']
            && OccursAt(all, last, e)
  {
    var out, f := Framed(first, text, last), |first|;
    FramedLayout(first, text, last);
    Middle(noise, out, tail, 0, |out|);
    Middle(noise, out, tail, 0, f);
    Middle(noise, out, tail, f, f + |text| + 2);
    Middle(noise, out, tail, f + |text| + 2, f + |text| + 2 + |last|);
    assert out[0..|out|] == out && out[0..f] == out[..f];
  }

  lemma PrintedLayout(noise: string, file: seq<Byte>, tail: string)
    ensures var all, out, n := Printed(noise, file, tail), PullOutput(file), |noise|;
            && EndOf(noise, file) <= n + |out| <= |all|
            && all[n..n + |out|] == out
            && all[n..n + |BEGIN|] == BEGIN
            && all[n + |BEGIN|..n + EndAt(file)] == ['\n'] + Encode(file) + ['\n']
            && OccursAt(all, END, n + EndAt(file))
  {
    FramedBetween(noise, BEGIN, Encode(file), END, tail, Printed(noise, file, tail), |noise| + EndAt(file));
  }

  lemma PrintedStart(noise: string, file: seq<Byte>, tail: string)
    ensures |noise| + |BEGIN| <= |Printed(noise, file, tail)|
    ensures Printed(noise, file, tail)[..|noise| + |BEGIN|] == noise + BEGIN
  {
    PrintedLayout(noise, file, tail);
    var all, n := Printed(noise, file, tail), |noise|;
    assert all[..n] == noise;
    assert all[..n + |BEGIN|] == all[..n] + all[n..n + |BEGIN|];
  }

  /** An occurrence inside a slice is an occurrence in the whole, shifted. */
  lemma OccursInSlice(s: string, a: nat, b: nat, pat: string, p: nat)
    requires a <= b <= |s| && p + |pat| <= b - a
    ensures OccursAt(s[a..b], pat, p) <==> OccursAt(s, pat, a + p)
  {
    SliceOfSlice(s, a, b, p, p + |pat|);
  }

  /** Neither sentinel starts before the pull output ... */
  lemma NothingInNoise(noise: string, file: seq<Byte>, tail: string, k: nat)
    requires Quiet(noise) && k < |noise|
    ensures !OccursAt(Printed(noise, file, tail), END, k) && !OccursAt(Printed(noise, file, tail), BEGIN, k)
  {
    PrintedStart(noise, file, tail);
    SentinelShape();
    OccursInPrefix(Printed(noise, file, tail), |noise| + |BEGIN|, BEGIN, k);
    OccursInPrefix(Printed(noise, file, tail), |noise| + |BEGIN|, END, k);
  }

  /** ... and inside it the end sentinel starts nowhere before its place. */
  lemma NoEarlierEndPrinted(noise: string, file: seq<Byte>, tail: string, p: nat)
    requires p < EndAt(file)
    ensures !OccursAt(Printed(noise, file, tail), END, |noise| + p)
  {
    PrintedLayout(noise, file, tail);
    NoEarlierEnd(file, p);
    OccursInSlice(Printed(noise, file, tail), |noise|, |noise| + |PullOutput(file)|, END, p);
  }

  /** A captured prefix holds the end sentinel first at its place, or not at all. */
  lemma CapturedEnd(noise: string, file: seq<Byte>, tail: string, n: nat)
    requires Quiet(noise) && n <= |Printed(noise, file, tail)|
    ensures Index(Printed(noise, file, tail)[..n], END)
            == if EndOf(noise, file) <= n then |noise| + EndAt(file) else -1
  {
    var all, e := Printed(noise, file, tail), |noise| + EndAt(file);
    PrintedLayout(noise, file, tail);
    forall k: nat | OccursAt(all[..n], END, k) ensures k >= e && k + |END| <= n {
      OccursInPrefix(all, n, END, k);
      if k < |noise| {
        NothingInNoise(noise, file, tail, k);
      } else if k < e {
        NoEarlierEndPrinted(noise, file, tail, k - |noise|);
      }
    }
    OccursInPrefix(all, n, END, e);
    if e + |END| <= n {
      IndexIs(all[..n], END, e);
    } else {
      IndexMissing(all[..n], END);
    }
  }

  /** extractPayload on captured output: the exact base64 text when the end sentinel
      was captured whole, and an error, never a panic, otherwise. */
  lemma ExtractCaptured(noise: string, file: seq<Byte>, tail: string, limit: nat)
    requires Quiet(noise)
    ensures ExtractPayload(Capture(Printed(noise, file, tail), limit))
            == if EndOf(noise, file) <= limit then Payload(Encode(file)) else NoSentinels
  {
    var all := Printed(noise, file, tail);
    var n := if |all| <= limit then |all| else limit;
    assert all[..|all|] == all;
    PrintedLayout(noise, file, tail);
    CapturedEnd(noise, file, tail, n);
    if EndOf(noise, file) <= limit {
      CapturedText(noise, file, tail, n);
    }
  }

  /** Between the sentinels stands the base64 text, trimmed of its line ends. */
  lemma CapturedText(noise: string, file: seq<Byte>, tail: string, n: nat)
    requires Quiet(noise) && EndOf(noise, file) <= n <= |Printed(noise, file, tail)|
    ensures var logs := Printed(noise, file, tail)[..n];
            && Index(logs, BEGIN) == |noise|
            && Trim(logs[|noise| + |BEGIN|..|noise| + EndAt(file)]) == Encode(file)
  {
    FirstSentinelFound(noise, file, tail, n);
    TextBetween(noise, file, tail, n);
    EncodeAlphabet(file);
    Base64HasNoSpace(Encode(file));
    TrimFramed(Encode(file));
  }

  lemma TextBetween(noise: string, file: seq<Byte>, tail: string, n: nat)
    requires EndOf(noise, file) <= n <= |Printed(noise, file, tail)|
    ensures Printed(noise, file, tail)[..n][|noise| + |BEGIN|..|noise| + EndAt(file)] == ['\n'] + Encode(file) + ['\n']
  {
    var all := Printed(noise, file, tail);
    PrintedLayout(noise, file, tail);
    SliceOfSlice(all, 0, n, |noise| + |BEGIN|, |noise| + EndAt(file));
    assert all[0..n] == all[..n];
  }

  lemma FirstSentinelFound(noise: string, file: seq<Byte>, tail: string, n: nat)
    requires Quiet(noise) && EndOf(noise, file) <= n <= |Printed(noise, file, tail)|
    ensures Index(Printed(noise, file, tail)[..n], BEGIN) == |noise|
  {
    var all, m := Printed(noise, file, tail), |noise|;
    PrintedLayout(noise, file, tail);
    SentinelShape();
    forall k: nat | k < m ensures !OccursAt(all[..n], BEGIN, k) {
      NothingInNoise(noise, file, tail, k);
      OccursInPrefix(all, n, BEGIN, k);
    }
    OccursInPrefix(all, n, BEGIN, m);
    IndexIs(all[..n], BEGIN, m);
  }

  /** What pull writes for these logs, or None when it reports an error. */
  function Pulled(logs: string): Option<seq<Byte>> {
    match ExtractPayload(logs)
    case Payload(text) => Decode(text)
    case _ => None
  }

  /** A pull never yields a truncated or altered file: whatever the byte limit, and
      whatever else is printed around it, it gives back exactly the file, or fails,
      and it fails exactly when the limit cuts into the end sentinel. */
  lemma PullExact(noise: string, file: seq<Byte>, tail: string, limit: nat)
    requires Quiet(noise)
    ensures Pulled(Capture(Printed(noise, file, tail), limit))
            == if EndOf(noise, file) <= limit then Some(file) else None
  {
    ExtractCaptured(noise, file, tail, limit);
    RoundTrip(file);
  }

  lemma EncodedSizeLimit(n: nat)
    ensures 21 + (n + 2) / 3 * 4 + 17 <= 1_024_000 <==> n <= 767_970
  {
  }

  /** With the controller's capture limit, and nothing else printed, exactly the
      files of at most 767970 bytes can be pulled. */
  lemma PullableSize(file: seq<Byte>)
    ensures Pulled(Capture(PullOutput(file), MAX_CAPTURED_BYTES)) == if |file| <= 767_970 then Some(file) else None
  {
    PullExact("", file, "", MAX_CAPTURED_BYTES);
    assert Printed("", file, "") == PullOutput(file);
    SentinelShape();
    EncodedSizeLimit(|file|);
    assert EndOf("", file) == 21 + (|file| + 2) / 3 * 4 + 17;
  }

  /** On arbitrary logs extractPayload can panic: exactly when the second sentinel
      starts within the last three dashes of the first. */
  lemma PanicsExactly(logs: string)
    ensures var b, e := Index(logs, BEGIN), Index(logs, END);
            ExtractPayload(logs) == Panics <==> b >= 0 && b + 16 <= e < b + 19
  {
    var b, e := Index(logs, BEGIN), Index(logs, END);
    if b >= 0 && b < e < b + 16 {
      NoDeepOverlap(logs, b, e - b);
    }
    SentinelShape();
  }

  lemma NoDeepOverlap(logs: string, b: nat, d: nat)
    requires OccursAt(logs, BEGIN, b) && 1 <= d < 16
    ensures !OccursAt(logs, END, b + d)
  {
    SentinelShape();
    FirstSentinelShape();
    var hit := logs[b..b + 19];
    assert forall i :: 0 <= i < 19 ==> hit[i] == logs[b + i];
    if b + d + 17 <= |logs| {
      Mismatch(logs, END, b + d, OverlapMismatch(d));
    }
  }

  /** Where the second sentinel, shifted by d into the first, differs from it. */
  function OverlapMismatch(d: nat): nat {
    if d == 1 then 2 else if d == 2 || d == 5 || d == 10 then 1 else 0
  }

  lemma FirstSentinelShape()
    ensures BEGIN[3] == 'K' && BEGIN[4] == 'O' && BEGIN[6] == 'F' && BEGIN[7] == 'I' && BEGIN[8] == 'L'
        && BEGIN[9] == 'E'
    ensures BEGIN[11] == 'B' && BEGIN[12] == 'E' && BEGIN[13] == 'G' && BEGIN[14] == 'I' && BEGIN[15] == 'N'
    ensures BEGIN[16] == '-' && BEGIN[17] == '-' && BEGIN[18] == '-'
  {
  }

  /** Such logs exist: a first sentinel running straight into a second one. */
  lemma PanicsOnOverlap()
    ensures ExtractPayload(BEGIN + END[3..]) == Panics
  {
    var s := BEGIN + END[3..];
    SentinelShape();
    FirstSentinelShape();
    assert s[..19] == BEGIN;
    IndexIs(s, BEGIN, 0);
    assert s[16..33] == END;
    Mismatch(s, END, 0, 11);
    forall d: nat | 1 <= d < 16 ensures !OccursAt(s, END, d) {
      NoDeepOverlap(s, 0, d);
    }
    IndexIs(s, END, 16);
  }

  // ----------------------------------------------------------------- push

  const TERMINATOR := "_KO_PAYLOAD_"

  /** The lines of the push script up to the here-document's body; `dst` is the
      quoted destination. */
  function PushHeader(dst: string): string {
    "#!/bin/sh\nset -eu\ndst=" + dst
    + "\ntmp=\"${dst}.tmp.$$\"\nmkdir -p \"$(dirname \"$dst\")\"\nbase64 -d > \"$tmp\" <<'_KO_PAYLOAD_'\n"
  }

  function PushFooter(mode: string): string {
    "chmod " + mode + " \"$tmp\"\nmv -f \"$tmp\" \"$dst\"\necho \"pushed $(wc -c < \"$dst\") bytes to $dst\"\n"
  }

  /** buildPushScript */
  function PushScript(dst: string, payload: string, mode: string): string {
    PushHeader(dst) + (payload + ['\n'] + TERMINATOR + ['\n'] + PushFooter(mode))
  }

  /** How a shell reads a here-document: whole lines up to the first one that is
      exactly the terminator; the body, and the text after it. */
  function HereDocument(text: string, terminator: string): Option<(string, string)>
    decreases |text|
  {
    var i := Find(text, '\n');
    if i == |text| then None
    else if text[..i] == terminator then Some(("", text[i + 1..]))
    else
      match HereDocument(text[i + 1..], terminator)
      case None => None
      case Some((body, rest)) => Some((text[..i] + ['\n'] + body, rest))
  }

  lemma HereDocumentLine(line: string, more: string, terminator: string)
    requires '\n' !in line && line != terminator
    ensures HereDocument(line + ['\n'] + more, terminator)
            == match HereDocument(more, terminator)
               case None => None
               case Some((body, rest)) => Some((line + ['\n'] + body, rest))
  {
    var text := line + ['\n'] + more;
    assert text[..|line|] == line && text[|line| + 1..] == more;
    FindIs(text, '\n', |line|);
  }

  lemma HereDocumentEnd(terminator: string, rest: string)
    requires '\n' !in terminator
    ensures HereDocument(terminator + ['\n'] + rest, terminator) == Some(("", rest))
  {
    var text := terminator + ['\n'] + rest;
    assert text[..|terminator|] == terminator && text[|terminator| + 1..] == rest;
    FindIs(text, '\n', |terminator|);
  }

  /** For every file, the here-document ends at its intended terminator, since no
      base64 line can equal it; decoding its body gives back the file; and the
      shell goes on with the rest of the script. */
  lemma PushRoundTrip(file: seq<Byte>, dst: string, mode: string)
    ensures var script := PushScript(dst, Encode(file), mode);
            var doc := HereDocument(script[|PushHeader(dst)|..], TERMINATOR);
            && doc == Some((Encode(file) + "\n", PushFooter(mode)))
            && Decode(doc.value.0) == Some(file)
  {
    var text := Encode(file);
    EncodeAlphabet(file);
    NeverTerminator(text);
    PayloadDocument(text, PushFooter(mode));
    assert PushScript(dst, text, mode)[|PushHeader(dst)|..] == text + ['\n'] + TERMINATOR + ['\n'] + PushFooter(mode);
    RoundTrip(file);
  }

  /** '_' and the newline are outside the base64 alphabet. */
  lemma NeverTerminator(text: string)
    requires Base64Text(text)
    ensures '\n' !in text && text != TERMINATOR
  {
    assert Value('_').None? && Value('\n').None?;
    assert TERMINATOR[0] == '_';
    assert |text| > 0 ==> text[0] in text;
  }

  lemma PayloadDocument(text: string, footer: string)
    requires '\n' !in text && text != TERMINATOR
    ensures HereDocument(text + ['\n'] + TERMINATOR + ['\n'] + footer, TERMINATOR) == Some((text + "\n", footer))
  {
    var tail := TERMINATOR + ['\n'] + footer;
    assert text + ['\n'] + TERMINATOR + ['\n'] + footer == text + ['\n'] + tail;
    HereDocumentEnd(TERMINATOR, footer);
    HereDocumentLine(text, tail, TERMINATOR);
    assert text + ['\n'] + "" == text + "\n";
  }

  /** RunPush's size check. */
  predicate PushAccepts(file: seq<Byte>) {
    |Encode(file)| <= MAX_COPY_BYTES
  }

  /** The check on the encoded size is exactly a limit on the raw size. */
  lemma PushLimit(file: seq<Byte>)
    ensures PushAccepts(file) <==> |file| <= MAX_COPY_BYTES * 3 / 4
  {
  }
}
