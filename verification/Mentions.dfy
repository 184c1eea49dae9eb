/** Mention tokens in the mobile composer (apps/mobile/lib/mention-serialize.ts). */
module Mentions {
  import opened Lists
  import opened Spaces

  const SENTINEL: char := '\U{2063}'

  datatype MentionType = Member | Agent | Squad | All | Issue

  datatype Marker = Marker(kind: MentionType, id: string, name: string)

  datatype Token = Token(start: nat, query: string)

  lemma {:induction false} Delimiters()
    ensures IsSpace(' ') && !IsSpace('@') && !IsSpace(SENTINEL)
  {
    InRangesAt(' ' as int, SPACES);
    assert SPACES[1].0 <= ' ' as int <= SPACES[1].1;
    InRangesAt('@' as int, SPACES);
    InRangesAt(SENTINEL as int, SPACES);
  }

  predicate NoSpace(s: string) {
    forall i :: 0 <= i < |s| ==> !IsSpace(s[i])
  }

  predicate NoSentinel(s: string) {
    SENTINEL !in s
  }

  // ---------------------------------------------------------------- the token at the cursor

  /** An `@` at `start`, at the beginning of a word, with neither space nor `@` from there to the cursor. */
  ghost predicate TokenAt(text: string, cursor: int, start: nat) {
    && start < cursor <= |text| && text[start] == '@'
    && (start > 0 ==> IsSpace(text[start - 1]))
    && forall i :: start < i < cursor ==> text[i] != '@' && !IsSpace(text[i])
  }

  method TokenAtCursor(text: string, cursor: int) returns (r: Option<Token>)
    ensures r.Some? ==> TokenAt(text, cursor, r.value.start) && r.value.query == text[r.value.start + 1..cursor]
    ensures r.None? ==> forall start :: !TokenAt(text, cursor, start)
  {
    if cursor < 1 || cursor > |text| { return None; }
    Delimiters();
    var i := cursor - 1;
    while i >= 0 && text[i] != '@'
      invariant -1 <= i < cursor
      invariant forall k :: i < k < cursor ==> text[k] != '@' && !IsSpace(text[k])
    {
      if IsSpace(text[i]) { return None; }
      i := i - 1;
    }
    if i < 0 { return None; }
    if i > 0 && text[i - 1] == SENTINEL { return None; }
    if i > 0 && !IsSpace(text[i - 1]) { return None; }
    var query := text[i + 1..cursor];
    if exists k :: 0 <= k < |query| && IsSpace(query[k]) { return None; }
    r := Some(Token(i, query));
  }

  // ---------------------------------------------------------------- inserting a mention

  /** The text, the cursor and the marker to append. */
  datatype Insertion = Insertion(text: string, cursor: nat, marker: Marker)

  function SliceFrom(s: string, i: nat): string {
    if i <= |s| then s[i..] else []
  }

  function SliceTo(s: string, i: nat): string {
    if i <= |s| then s[..i] else s
  }

  function InsertMention(text: string, start: nat, queryLength: nat, m: Marker): Insertion {
    var before, after := SliceTo(text, start), SliceFrom(text, start + 1 + queryLength);
    var insert := [SENTINEL, '@'] + m.name + " ";
    Insertion(before + insert + after, |before| + |insert|, m)
  }

  // ---------------------------------------------------------------- what serializing means

  /** A character of the output, or a link made from a marker. */
  datatype Piece = Chr(c: char) | Link(m: Marker)

  function TypeName(t: MentionType): string {
    match t
    case Member => "member" case Agent => "agent" case Squad => "squad" case All => "all" case Issue => "issue"
  }

  function LinkText(m: Marker): string {
    "[" + (if m.kind.Issue? then m.name else "@" + m.name) + "](mention://" + TypeName(m.kind) + "/" + m.id + ")"
  }

  function Shown(p: Piece): string {
    match p case Chr(c) => [c] case Link(m) => LinkText(m)
  }

  function Typed(p: Piece): string {
    match p case Chr(c) => [c] case Link(m) => "@" + m.name
  }

  /** The pieces written out one after another. */
  function Write(ps: seq<Piece>, f: Piece -> string): string {
    if ps == [] then [] else Write(ps[..|ps| - 1], f) + f(ps[|ps| - 1])
  }

  function Render(ps: seq<Piece>): string {
    Write(ps, Shown)
  }

  /** Every link turned back into `@name`. */
  function Unlink(ps: seq<Piece>): string {
    Write(ps, Typed)
  }

  function Linked(ps: seq<Piece>): seq<Marker> {
    if ps == [] then []
    else Linked(ps[..|ps| - 1]) + if ps[|ps| - 1].Link? then [ps[|ps| - 1].m] else []
  }

  function Strip(s: string): string {
    if s == [] then [] else (if s[0] == SENTINEL then [] else [s[0]]) + Strip(s[1..])
  }

  /** The characters up to the first space. */
  function Word(s: string): string {
    if s == [] || IsSpace(s[0]) then [] else [s[0]] + Word(s[1..])
  }

  predicate StartsRun(s: string) {
    |s| > 1 && s[0] == SENTINEL && s[1] == '@'
  }

  lemma {:induction false} WordFits(s: string)
    ensures |Word(s)| <= |s| && s[..|Word(s)|] == Word(s) && NoSpace(Word(s))
    ensures |Word(s)| < |s| ==> IsSpace(s[|Word(s)|])
  {
    if s != [] && !IsSpace(s[0]) { WordFits(s[1..]); }
  }

  /** What follows a run: the text from the end of its word. */
  function AfterRun(s: string): (r: string)
    requires StartsRun(s)
    ensures |r| < |s|
  {
    WordFits(s[2..]);
    s[2 + |Word(s[2..])|..]
  }

  /** The words of the sentinel runs, left to right. */
  function Runs(s: string): seq<string>
    decreases |s|
  {
    if s == [] then []
    else if StartsRun(s) then [Word(s[2..])] + Runs(AfterRun(s))
    else Runs(s[1..])
  }

  function Names(ms: seq<Marker>): seq<string> {
    seq(|ms|, i requires 0 <= i < |ms| => ms[i].name)
  }

  /** The text with its runs replaced, one marker each; other sentinels disappear. */
  function Pieces(s: string, ms: seq<Marker>): seq<Piece>
    requires Runs(s) == Names(ms)
    decreases |s|
  {
    if s == [] then []
    else if StartsRun(s) then
      assert Names(ms)[1..] == Names(ms[1..]);
      [Link(ms[0])] + Pieces(AfterRun(s), ms[1..])
    else if s[0] == SENTINEL then Pieces(s[1..], ms)
    else [Chr(s[0])] + Pieces(s[1..], ms)
  }

  /** A run takes the first marker, if that has its name. */
  lemma {:induction false} RunStep(s: string, ms: seq<Marker>)
    requires StartsRun(s)
    ensures Linkable(s, ms) <==> ms != [] && ms[0].name == Word(s[2..]) && Linkable(AfterRun(s), ms[1..])
    ensures Linkable(s, ms) ==> Pieces(s, ms) == [Link(ms[0])] + Pieces(AfterRun(s), ms[1..])
  {
    var w, rest := Word(s[2..]), AfterRun(s);
    assert Runs(s) == [w] + Runs(rest);
    if ms != [] {
      assert Names(ms) == [ms[0].name] + Names(ms[1..]);
      assert ([w] + Runs(rest))[1..] == Runs(rest) && ([ms[0].name] + Names(ms[1..]))[1..] == Names(ms[1..]);
      assert ([w] + Runs(rest))[0] == w && ([ms[0].name] + Names(ms[1..]))[0] == ms[0].name;
    }
  }

  /** The runs name the markers, in order and in number. */
  predicate Linkable(text: string, markers: seq<Marker>) {
    Runs(text) == Names(markers)
  }

  function Outcome(text: string, markers: seq<Marker>): Option<seq<Piece>> {
    if Linkable(text, markers) then Some(Pieces(text, markers)) else None
  }

  function Serialized(text: string, markers: seq<Marker>): string {
    match Outcome(text, markers) case Some(ps) => Render(ps) case None => Strip(text)
  }

  // ---------------------------------------------------------------- the scanner

  /** `text.indexOf(SENTINEL, from)`, with the length for "not found". */
  method IndexOfSentinel(text: string, from: nat) returns (at: nat)
    requires from <= |text|
    ensures from <= at <= |text| && NoSentinel(text[from..at]) && (at < |text| ==> text[at] == SENTINEL)
  {
    at := from;
    while at < |text| && text[at] != SENTINEL
      invariant from <= at <= |text| && NoSentinel(text[from..at])
    {
      at := at + 1;
      assert text[from..at] == text[from..at - 1] + [text[at - 1]];
    }
  }

  method WordEnd(text: string, from: nat) returns (end: nat)
    requires from <= |text|
    ensures from <= end <= |text| && text[from..end] == Word(text[from..])
  {
    end := from;
    while end < |text| && !IsSpace(text[end])
      invariant from <= end <= |text| && NoSpace(text[from..end])
    {
      end := end + 1;
      assert text[from..end] == text[from..end - 1] + [text[end - 1]];
    }
    ScanWord(text, from, end);
  }

  method SerializeMentions(text: string, markers: seq<Marker>) returns (r: string)
    ensures r == Serialized(text, markers)
  {
    if SENTINEL !in text {
      SerializedPlain(text, markers);
      return text;
    }
    var out, markerIndex, abort, ps := ReplaceRuns(text, markers);
    if abort || markerIndex != |markers| {
      r := StripSentinels(text);
    } else {
      r := out;
    }
  }

  /** The loop of `serializeMentions`; `ps` are the pieces it has written to `out`. */
  method ReplaceRuns(text: string, markers: seq<Marker>)
    returns (out: string, markerIndex: nat, abort: bool, ghost ps: seq<Piece>)
    ensures out == Render(ps)
    ensures Outcome(text, markers) == if !abort && markerIndex == |markers| then Some(ps) else None
  {
    var cursor := 0;
    out, markerIndex, abort, ps := "", 0, false, [];
    assert text[0..] == text && markers[0..] == markers;
    ThenNothing(Outcome(text, markers));
    while cursor < |text|
      invariant out == Render(ps)
      invariant 0 <= cursor <= |text| && 0 <= markerIndex <= |markers| && !abort
      invariant Outcome(text, markers) == Then(ps, Outcome(text[cursor..], markers[markerIndex..]))
      decreases |text| - cursor
    {
      var sentinelAt := IndexOfSentinel(text, cursor);
      ScanPlain(text, markers, cursor, sentinelAt, markerIndex, ps);
      out, ps := out + text[cursor..sentinelAt], ps + Chrs(text[cursor..sentinelAt]);
      if sentinelAt == |text| {
        cursor := sentinelAt;
        break;
      }
      if sentinelAt + 1 == |text| || text[sentinelAt + 1] != '@' {
        ScanStray(text, markers[markerIndex..], sentinelAt);
        cursor := sentinelAt + 1;
        continue;
      }
      var wordEnd := WordEnd(text, sentinelAt + 2);
      var word := text[sentinelAt + 2..wordEnd];
      ScanRun(text, markers, sentinelAt, wordEnd, markerIndex, ps);
      if markerIndex == |markers| || markers[markerIndex].name != word {
        return out, markerIndex, true, ps;
      }
      RenderLink(ps, markers[markerIndex]);
      out, ps := out + LinkText(markers[markerIndex]), ps + [Link(markers[markerIndex])];
      markerIndex := markerIndex + 1;
      cursor := wordEnd;
    }
    assert text[cursor..] == [];
    ScanEnds(markers, markerIndex, ps);
  }

  /** `text.replace(/sentinel/g, "")`. */
  method StripSentinels(text: string) returns (r: string)
    ensures r == Strip(text)
  {
    r := "";
    assert text[0..] == text && "" + Strip(text) == Strip(text);
    for i := 0 to |text|
      invariant Strip(text) == r + Strip(text[i..])
    {
      StripNext(text, i, r);
      if text[i] != SENTINEL { r := r + [text[i]]; }
    }
    assert Strip(text[|text|..]) == [] && r + [] == r;
  }

  lemma {:induction false} StripNext(text: string, i: nat, r: string)
    requires i < |text|
    ensures r + Strip(text[i..]) == (if text[i] != SENTINEL then r + [text[i]] else r) + Strip(text[i + 1..])
  {
    assert text[i..][1..] == text[i + 1..];
    if text[i] != SENTINEL {
      ConcatAssoc(r, [text[i]], Strip(text[i + 1..]));
    } else {
      assert [] + Strip(text[i + 1..]) == Strip(text[i + 1..]);
    }
  }

  /** What has been scanned, in front of what the rest becomes. */
  function Then(ps: seq<Piece>, rest: Option<seq<Piece>>): Option<seq<Piece>> {
    match rest case Some(qs) => Some(ps + qs) case None => None
  }

  lemma {:induction false} ThenNothing(rest: Option<seq<Piece>>)
    ensures Then([], rest) == rest
  {
    if rest.Some? { assert [] + rest.value == rest.value; }
  }

  lemma {:induction false} ThenThen(ps: seq<Piece>, qs: seq<Piece>, rest: Option<seq<Piece>>)
    ensures Then(ps, Then(qs, rest)) == Then(ps + qs, rest)
  {
    if rest.Some? { ConcatAssoc(ps, qs, rest.value); }
  }

  function Chrs(s: string): seq<Piece> {
    seq(|s|, i requires 0 <= i < |s| => Chr(s[i]))
  }

  lemma {:induction false} WriteConcat(a: seq<Piece>, b: seq<Piece>, f: Piece -> string)
    ensures Write(a + b, f) == Write(a, f) + Write(b, f)
    decreases |b|
  {
    if b == [] {
      assert a + b == a;
    } else {
      var n := |b| - 1;
      assert (a + b)[..|a + b| - 1] == a + b[..n] && (a + b)[|a + b| - 1] == b[n];
      WriteConcat(a, b[..n], f);
    }
  }

  lemma {:induction false} LinkedConcat(a: seq<Piece>, b: seq<Piece>)
    ensures Linked(a + b) == Linked(a) + Linked(b)
    decreases |b|
  {
    if b == [] {
      assert a + b == a;
    } else {
      var n := |b| - 1;
      assert (a + b)[..|a + b| - 1] == a + b[..n] && (a + b)[|a + b| - 1] == b[n];
      LinkedConcat(a, b[..n]);
    }
  }

  lemma {:induction false} RenderChrs(s: string)
    ensures Render(Chrs(s)) == s
    decreases |s|
  {
    if s != [] {
      var n := |s| - 1;
      assert Chrs(s)[..n] == Chrs(s[..n]);
      RenderChrs(s[..n]);
      assert s == s[..n] + [s[n]];
    }
  }

  /** Text without sentinels in front of `rest` adds itself and no run. */
  lemma {:induction false} PlainText(s: string, rest: string)
    requires NoSentinel(s)
    ensures Runs(s + rest) == Runs(rest)
    ensures Strip(s + rest) == s + Strip(rest)
    decreases |s|
  {
    if s == [] {
      assert s + rest == rest;
    } else {
      assert (s + rest)[1..] == s[1..] + rest && (s + rest)[0] == s[0] && s[0] in s;
      PlainText(s[1..], rest);
      ConcatAssoc([s[0]], s[1..], Strip(rest));
      assert s == [s[0]] + s[1..];
    }
  }

  lemma {:induction false} PlainPieces(s: string, rest: string, ms: seq<Marker>)
    requires NoSentinel(s) && Linkable(rest, ms)
    ensures Linkable(s + rest, ms) && Pieces(s + rest, ms) == Chrs(s) + Pieces(rest, ms)
    decreases |s|
  {
    PlainText(s, rest);
    if s == [] {
      assert s + rest == rest;
    } else {
      assert (s + rest)[1..] == s[1..] + rest && (s + rest)[0] == s[0] && s[0] in s;
      PlainPieces(s[1..], rest, ms);
      assert Chrs(s) == [Chr(s[0])] + Chrs(s[1..]);
      ConcatAssoc([Chr(s[0])], Chrs(s[1..]), Pieces(rest, ms));
    }
  }

  lemma {:induction false} SerializedPlain(text: string, markers: seq<Marker>)
    requires NoSentinel(text)
    ensures Serialized(text, markers) == text && Strip(text) == text
  {
    PlainText(text, []);
    assert text + [] == text;
    if Linkable(text, markers) {
      PlainPieces(text, [], markers);
      RenderChrs(text);
      assert Pieces(text, markers) == Chrs(text);
    }
  }

  lemma {:induction false} ScanPlain(text: string, markers: seq<Marker>, cursor: nat, at: nat, mi: nat, ps: seq<Piece>)
    requires cursor <= at <= |text| && mi <= |markers| && NoSentinel(text[cursor..at])
    ensures Then(ps, Outcome(text[cursor..], markers[mi..]))
         == Then(ps + Chrs(text[cursor..at]), Outcome(text[at..], markers[mi..]))
    ensures Render(ps + Chrs(text[cursor..at])) == Render(ps) + text[cursor..at]
  {
    var s, rest, ms := text[cursor..at], text[at..], markers[mi..];
    WriteConcat(ps, Chrs(s), Shown);
    RenderChrs(s);
    assert text[cursor..] == s + rest;
    PlainText(s, rest);
    if Linkable(rest, ms) { PlainPieces(s, rest, ms); }
    ThenThen(ps, Chrs(s), Outcome(rest, ms));
  }

  lemma {:induction false} ScanStray(text: string, markers: seq<Marker>, at: nat)
    requires at < |text| && text[at] == SENTINEL && (at + 1 < |text| ==> text[at + 1] != '@')
    ensures Outcome(text[at..], markers) == Outcome(text[at + 1..], markers)
  {
    assert !StartsRun(text[at..]);
    assert text[at..][1..] == text[at + 1..];
  }

  lemma {:induction false} ScanRun(text: string, markers: seq<Marker>, at: nat, end: nat, mi: nat, ps: seq<Piece>)
    requires at + 2 <= end <= |text| && text[at] == SENTINEL && text[at + 1] == '@' && mi <= |markers|
    requires text[at + 2..end] == Word(text[at + 2..])
    ensures Then(ps, Outcome(text[at..], markers[mi..]))
         == if mi < |markers| && markers[mi].name == text[at + 2..end]
            then Then(ps + [Link(markers[mi])], Outcome(text[end..], markers[mi + 1..]))
            else None
  {
    RunAt(text, at);
    RunStep(text[at..], markers[mi..]);
    assert end == at + 2 + |Word(text[at + 2..])|;
    if mi < |markers| {
      assert markers[mi..][1..] == markers[mi + 1..];
      ThenThen(ps, [Link(markers[mi])], Outcome(AfterRun(text[at..]), markers[mi + 1..]));
    }
  }

  lemma {:induction false} RunAt(text: string, at: nat)
    requires at + 1 < |text| && text[at] == SENTINEL && text[at + 1] == '@'
    ensures StartsRun(text[at..]) && text[at..][2..] == text[at + 2..]
    ensures at + 2 + |Word(text[at + 2..])| <= |text|
    ensures AfterRun(text[at..]) == text[at + 2 + |Word(text[at + 2..])|..]
  {
    assert text[at..][2..] == text[at + 2..];
    WordFits(text[at + 2..]);
  }

  lemma {:induction false} RenderLink(ps: seq<Piece>, m: Marker)
    ensures Render(ps + [Link(m)]) == Render(ps) + LinkText(m)
  {
    WriteConcat(ps, [Link(m)], Shown);
  }

  lemma {:induction false} ScanWord(text: string, from: nat, to: nat)
    requires from <= to <= |text| && NoSpace(text[from..to]) && (to < |text| ==> IsSpace(text[to]))
    ensures Word(text[from..]) == text[from..to]
    decreases |text| - from
  {
    if from < to {
      assert text[from..to][0] == text[from] && text[from..][1..] == text[from + 1..];
      assert text[from..to] == [text[from]] + text[from + 1..to];
      ScanWord(text, from + 1, to);
    }
  }

  lemma {:induction false} ScanEnds(markers: seq<Marker>, mi: nat, ps: seq<Piece>)
    requires mi <= |markers|
    ensures Then(ps, Outcome([], markers[mi..])) == if mi == |markers| then Some(ps) else None
  {
    assert |Names(markers[mi..])| == |markers| - mi;
    assert ps + [] == ps;
  }

  // ---------------------------------------------------------------- a link names its marker

  function Label(m: Marker): string {
    if m.kind.Issue? then m.name else "@" + m.name
  }

  lemma {:induction false} LinkShape(m: Marker)
    ensures LinkText(m)[1..] == Label(m) + [']'] + ("(mention://" + (TypeName(m.kind) + ['/'] + (m.id + ")")))
  {
    assert "](mention://" == "]" + "(mention://";
  }

  /** How each kind of mention is written: the name, for all but issues with an `@`, and a path of kind and id. */
  lemma {:induction false} LinkIsSpelled(m: Marker)
    ensures m.kind == Member ==> LinkText(m) == "[@" + m.name + "](mention://member/" + m.id + ")"
    ensures m.kind == Agent ==> LinkText(m) == "[@" + m.name + "](mention://agent/" + m.id + ")"
    ensures m.kind == Squad ==> LinkText(m) == "[@" + m.name + "](mention://squad/" + m.id + ")"
    ensures m.kind == All ==> LinkText(m) == "[@" + m.name + "](mention://all/" + m.id + ")"
    ensures m.kind == Issue ==> LinkText(m) == "[" + m.name + "](mention://issue/" + m.id + ")"
  {
    var at := if m.kind.Issue? then "" else "@";
    Respelled("[", at, m.name, "](mention://", TypeName(m.kind), "/", m.id, ")");
    assert "" + m.name == m.name;
    assert "[" + at == if m.kind.Issue? then "[" else "[@";
    assert "](mention://" + TypeName(m.kind) + "/" ==
      match m.kind case Member => "](mention://member/" case Agent => "](mention://agent/"
                   case Squad => "](mention://squad/" case All => "](mention://all/" case Issue => "](mention://issue/";
  }

  lemma {:induction false} Respelled(open: string, at: string, name: string, scheme: string, kind: string, slash: string,
                                     id: string, end: string)
    ensures open + (at + name) + scheme + kind + slash + id + end
         == (open + at) + name + (scheme + kind + slash) + id + end
  {
  }

  /** As long as names hold no closing bracket, different markers give different links. */
  lemma {:induction false} LinkNamesMarker(m: Marker, n: Marker)
    requires ']' !in m.name && ']' !in n.name
    ensures LinkText(m) == LinkText(n) <==> m == n
  {
    if LinkText(m) == LinkText(n) {
      var scheme := "(mention://";
      var mt, nt := TypeName(m.kind), TypeName(n.kind);
      LinkShape(m);
      LinkShape(n);
      SplitAtFirst(Label(m), scheme + (mt + ['/'] + (m.id + ")")), Label(n), scheme + (nt + ['/'] + (n.id + ")")), ']');
      PrefixCancel(scheme, mt + ['/'] + (m.id + ")"), nt + ['/'] + (n.id + ")"));
      SplitAtFirst(mt, m.id + ")", nt, n.id + ")", '/');
      assert (m.id + ")")[..|m.id|] == m.id && (n.id + ")")[..|n.id|] == n.id;
      PrefixCancel("@", m.name, n.name);
    }
  }

  // ---------------------------------------------------------------- nothing the user typed is lost

  lemma {:induction false} PiecesKeepText(s: string, ms: seq<Marker>)
    requires Linkable(s, ms)
    ensures Strip(Unlink(Pieces(s, ms))) == Strip(s)
    decreases |s|
  {
    if s == [] {
    } else if StartsRun(s) {
      RunStep(s, ms);
      PiecesKeepText(AfterRun(s), ms[1..]);
      LinkKeepsText(s, ms[0], Pieces(AfterRun(s), ms[1..]));
    } else {
      PiecesKeepText(s[1..], ms);
      if s[0] != SENTINEL { CharKeepsText(s, Pieces(s[1..], ms)); }
    }
  }

  lemma {:induction false} LinkKeepsText(s: string, m: Marker, tail: seq<Piece>)
    requires StartsRun(s) && m.name == Word(s[2..]) && Strip(Unlink(tail)) == Strip(AfterRun(s))
    ensures Strip(Unlink([Link(m)] + tail)) == Strip(s)
  {
    RunKeepsText(s);
    StripCons(Link(m), tail);
  }

  lemma {:induction false} CharKeepsText(s: string, tail: seq<Piece>)
    requires s != [] && Strip(Unlink(tail)) == Strip(s[1..])
    ensures Strip(Unlink([Chr(s[0])] + tail)) == Strip(s)
  {
    StripCons(Chr(s[0]), tail);
    StripConcat([s[0]], s[1..]);
    assert s == [s[0]] + s[1..];
  }

  lemma {:induction false} UnlinkCons(p: Piece, ps: seq<Piece>)
    ensures Unlink([p] + ps) == Typed(p) + Unlink(ps)
  {
    WriteConcat([p], ps, Typed);
  }

  lemma {:induction false} StripCons(p: Piece, ps: seq<Piece>)
    ensures Strip(Unlink([p] + ps)) == Strip(Typed(p)) + Strip(Unlink(ps))
  {
    UnlinkCons(p, ps);
    StripConcat(Typed(p), Unlink(ps));
  }

  lemma {:induction false} LinkedCons(p: Piece, ps: seq<Piece>)
    ensures Linked([p] + ps) == (if p.Link? then [p.m] else []) + Linked(ps)
  {
    LinkedConcat([p], ps);
    LinkedOne(p);
  }

  lemma {:induction false} PiecesLinkInOrder(s: string, ms: seq<Marker>)
    requires Linkable(s, ms)
    ensures Linked(Pieces(s, ms)) == ms
    decreases |s|
  {
    if s == [] {
    } else if StartsRun(s) {
      RunStep(s, ms);
      PiecesLinkInOrder(AfterRun(s), ms[1..]);
      LinkedCons(Link(ms[0]), Pieces(AfterRun(s), ms[1..]));
      assert ms == [ms[0]] + ms[1..];
    } else {
      PiecesLinkInOrder(s[1..], ms);
      if s[0] != SENTINEL { LinkedCons(Chr(s[0]), Pieces(s[1..], ms)); }
    }
  }

  lemma {:induction false} PiecesHideSentinels(s: string, ms: seq<Marker>)
    requires Linkable(s, ms) && forall m :: m in ms ==> NoSentinel(m.name)
    ensures NoSentinel(Unlink(Pieces(s, ms)))
    decreases |s|
  {
    if s == [] {
    } else if StartsRun(s) {
      RunStep(s, ms);
      PiecesHideSentinels(AfterRun(s), ms[1..]);
      UnlinkCons(Link(ms[0]), Pieces(AfterRun(s), ms[1..]));
    } else {
      PiecesHideSentinels(s[1..], ms);
      if s[0] != SENTINEL { UnlinkCons(Chr(s[0]), Pieces(s[1..], ms)); }
    }
  }

  lemma {:induction false} RunKeepsText(s: string)
    requires StartsRun(s)
    ensures Strip(s) == Strip("@" + Word(s[2..])) + Strip(AfterRun(s))
  {
    WordFits(s[2..]);
    assert s[1..] == ("@" + Word(s[2..])) + AfterRun(s);
    StripConcat("@" + Word(s[2..]), AfterRun(s));
  }

  lemma {:induction false} LinkedOne(p: Piece)
    ensures Linked([p]) == if p.Link? then [p.m] else []
  {
    assert [p][..0] == [];
  }

  lemma {:induction false} StripConcat(a: string, b: string)
    ensures Strip(a + b) == Strip(a) + Strip(b)
  {
    if a == [] {
      assert a + b == b;
    } else {
      assert (a + b)[1..] == a[1..] + b;
      StripConcat(a[1..], b);
    }
  }

  lemma {:induction false} StripRemoves(s: string)
    ensures NoSentinel(Strip(s))
    ensures NoSentinel(s) ==> Strip(s) == s
  {
    if s != [] {
      StripRemoves(s[1..]);
      assert s == [s[0]] + s[1..];
    }
  }

  /**
   * Serializing gives the text without sentinels, or that text with each marker, in order, shown as a link:
   * the links written back as `@name` give the text without sentinels again.
   */
  lemma {:induction false} NoTextIsLost(text: string, markers: seq<Marker>)
    requires forall m :: m in markers ==> NoSentinel(m.name)
    ensures || Serialized(text, markers) == Strip(text)
            || exists ps :: Serialized(text, markers) == Render(ps) && Linked(ps) == markers && Unlink(ps) == Strip(text)
  {
    if Linkable(text, markers) {
      var ps := Pieces(text, markers);
      PiecesKeepText(text, markers);
      PiecesLinkInOrder(text, markers);
      PiecesHideSentinels(text, markers);
      StripRemoves(Unlink(ps));
    }
  }

  // ---------------------------------------------------------------- editing and serializing compose

  /** Nothing that follows can join the last word. */
  predicate EndsWord(s: string) {
    s == [] || IsSpace(s[|s| - 1])
  }

  lemma {:induction false} WordConcat(a: string, b: string)
    requires EndsWord(a) && a != []
    ensures Word(a + b) == Word(a) && |Word(a)| < |a|
  {
    assert (a + b)[0] == a[0] && (a + b)[1..] == a[1..] + b;
    if !IsSpace(a[0]) {
      assert a[|a| - 1] == a[1..][|a| - 2];
      WordConcat(a[1..], b);
    }
  }

  lemma {:induction false} RunConcat(a: string, b: string)
    requires EndsWord(a) && StartsRun(a)
    ensures StartsRun(a + b) && Word((a + b)[2..]) == Word(a[2..])
    ensures AfterRun(a + b) == AfterRun(a) + b && EndsWord(AfterRun(a))
  {
    Delimiters();
    assert (a + b)[2..] == a[2..] + b && |a| > 2;
    assert a[2..][|a| - 3] == a[|a| - 1];
    WordConcat(a[2..], b);
    var rest := AfterRun(a);
    assert rest[|rest| - 1] == a[|a| - 1];
  }

  lemma {:induction false} CharConcat(a: string, b: string)
    requires EndsWord(a) && a != [] && !StartsRun(a)
    ensures !StartsRun(a + b) && (a + b)[0] == a[0] && (a + b)[1..] == a[1..] + b && EndsWord(a[1..])
  {
    Delimiters();
    assert |a| > 1 ==> a[1..][|a| - 2] == a[|a| - 1];
  }

  lemma {:induction false} RunsConcat(a: string, b: string)
    requires EndsWord(a)
    ensures Runs(a + b) == Runs(a) + Runs(b)
    decreases |a|
  {
    if a == [] {
      assert a + b == b;
    } else if StartsRun(a) {
      RunConcat(a, b);
      RunsConcat(AfterRun(a), b);
      ConcatAssoc([Word(a[2..])], Runs(AfterRun(a)), Runs(b));
    } else {
      CharConcat(a, b);
      RunsConcat(a[1..], b);
    }
  }

  lemma {:induction false} LinkableConcat(a: string, ma: seq<Marker>, b: string, mb: seq<Marker>)
    requires EndsWord(a) && Linkable(a, ma) && Linkable(b, mb)
    ensures Linkable(a + b, ma + mb)
  {
    RunsConcat(a, b);
    assert Names(ma + mb) == Names(ma) + Names(mb);
  }

  lemma {:induction false} PiecesConcat(a: string, ma: seq<Marker>, b: string, mb: seq<Marker>)
    requires EndsWord(a) && Linkable(a, ma) && Linkable(b, mb)
    ensures Linkable(a + b, ma + mb)
    ensures Pieces(a + b, ma + mb) == Pieces(a, ma) + Pieces(b, mb)
    decreases |a|
  {
    LinkableConcat(a, ma, b, mb);
    if a == [] {
      assert a + b == b && ma + mb == mb;
    } else if StartsRun(a) {
      PiecesConcatRun(a, ma, b, mb);
    } else {
      CharConcat(a, b);
      PiecesConcat(a[1..], ma, b, mb);
      ConcatAssoc([Chr(a[0])], Pieces(a[1..], ma), Pieces(b, mb));
    }
  }

  lemma {:induction false} PiecesConcatRun(a: string, ma: seq<Marker>, b: string, mb: seq<Marker>)
    requires EndsWord(a) && StartsRun(a)
    requires Linkable(a, ma) && Linkable(b, mb) && Linkable(a + b, ma + mb)
    ensures Pieces(a + b, ma + mb) == Pieces(a, ma) + Pieces(b, mb)
    decreases |a|, 0
  {
    RunConcat(a, b);
    RunStep(a, ma);
    RunStep(a + b, ma + mb);
    assert (ma + mb)[1..] == ma[1..] + mb && (ma + mb)[0] == ma[0];
    PiecesConcat(AfterRun(a), ma[1..], b, mb);
    ConcatAssoc([Link(ma[0])], Pieces(AfterRun(a), ma[1..]), Pieces(b, mb));
  }

  /** An inserted mention, with the space behind it. */
  function MentionText(m: Marker): string {
    [SENTINEL, '@'] + m.name + " "
  }

  lemma {:induction false} MentionRuns(m: Marker)
    ensures Runs(MentionText(m)) == [m.name] <==> NoSpace(m.name)
    ensures NoSpace(m.name) ==> Linkable(MentionText(m), [m]) && Serialized(MentionText(m), [m]) == LinkText(m) + " "
  {
    var s := MentionText(m);
    assert StartsRun(s) && s[2..] == m.name + " ";
    if NoSpace(m.name) {
      MentionWord(m);
      RunStep(s, [m]);
      assert [m][1..] == [];
      OneSpace();
      WriteConcat([Link(m)], [Chr(' ')], Shown);
      assert Runs(s) == [m.name] + [];
    } else {
      WordFits(s[2..]);
      assert Runs(s)[0] == Word(s[2..]);
    }
  }

  lemma {:induction false} MentionWord(m: Marker)
    requires NoSpace(m.name)
    ensures var s := MentionText(m); StartsRun(s) && Word(s[2..]) == m.name && AfterRun(s) == " "
  {
    var s := MentionText(m);
    assert s[2..2 + |m.name|] == m.name;
    ScanWord(s, 2, 2 + |m.name|);
  }

  lemma {:induction false} OneSpace()
    ensures Runs(" ") == [] && Linkable(" ", []) && Pieces(" ", []) == [Chr(' ')]
  {
    Delimiters();
    assert [' '][1..] == [] && Names([]) == [];
  }

  /** The text after an insertion, and where the cursor is. */
  lemma {:induction false} InsertShape(text: string, cursor: nat, token: Token, m: Marker)
    requires TokenAt(text, cursor, token.start) && token.query == text[token.start + 1..cursor]
    ensures var r := InsertMention(text, token.start, |token.query|, m);
      && r.text == text[..token.start] + (MentionText(m) + text[cursor..]) && r.marker == m
      && 0 < r.cursor <= |r.text| && r.text[r.cursor - 1] == ' ' && r.text[r.cursor..] == text[cursor..]
    ensures EndsWord(text[..token.start]) && EndsWord(MentionText(m))
  {
    InsertedText(text, token.start, cursor, token.query, m);
    MentionEndsWord(m);
    PrefixEndsWord(text, cursor, token.start);
  }

  lemma {:induction false} PrefixEndsWord(text: string, cursor: nat, start: nat)
    requires TokenAt(text, cursor, start)
    ensures EndsWord(text[..start])
  {
    if start > 0 { assert text[..start][start - 1] == text[start - 1]; }
  }

  lemma {:induction false} MentionEndsWord(m: Marker)
    ensures EndsWord(MentionText(m))
  {
    Delimiters();
    assert MentionText(m)[|MentionText(m)| - 1] == ' ';
  }

  lemma {:induction false} InsertedText(text: string, start: nat, cursor: nat, query: string, m: Marker)
    requires start < cursor <= |text| && query == text[start + 1..cursor]
    ensures var r := InsertMention(text, start, |query|, m);
      && r.text == text[..start] + (MentionText(m) + text[cursor..]) && r.marker == m
      && 0 < r.cursor <= |r.text| && r.text[r.cursor - 1] == ' ' && r.text[r.cursor..] == text[cursor..]
  {
    var before, after, mention := text[..start], text[cursor..], MentionText(m);
    var r := InsertMention(text, start, |query|, m);
    assert r.text == before + mention + after && r.cursor == |before + mention|;
    ConcatAssoc(before, mention, after);
    assert (before + mention)[|before + mention| - 1] == ' ';
  }

  /** A pick writes U+2063, `@`, the name and a space in place of the token. */
  lemma {:induction false} InsertIsSpelled(text: string, cursor: nat, token: Token, m: Marker)
    requires TokenAt(text, cursor, token.start) && token.query == text[token.start + 1..cursor]
    ensures var r := InsertMention(text, token.start, |token.query|, m);
      r.text == text[..token.start] + (("\U{2063}@" + m.name + " ") + text[cursor..])
      && r.cursor == token.start + 3 + |m.name| && r.marker == m
  {
    InsertedText(text, token.start, cursor, token.query, m);
    assert [SENTINEL, '@'] == "\U{2063}@";
  }

  lemma {:induction false} NamesConcat(a: seq<Marker>, b: seq<Marker>)
    ensures Names(a + b) == Names(a) + Names(b)
    ensures forall m :: Names([m]) == [m.name]
  {
  }

  lemma {:induction false} RunsJoin(before: string, mention: string, after: string)
    requires EndsWord(before) && EndsWord(mention)
    ensures Runs(before + (mention + after)) == Runs(before) + (Runs(mention) + Runs(after))
  {
    RunsConcat(before, mention + after);
    RunsConcat(mention, after);
  }

  lemma {:induction false} InsertLinkable(text: string, cursor: nat, token: Token, m: Marker,
                                          earlier: seq<Marker>, later: seq<Marker>)
    requires TokenAt(text, cursor, token.start) && token.query == text[token.start + 1..cursor]
    requires Linkable(text[..token.start], earlier) && Linkable(text[cursor..], later)
    ensures var r := InsertMention(text, token.start, |token.query|, m);
      Linkable(r.text, earlier + later + [r.marker])
      <==> Runs(MentionText(m)) + Names(later) == Names(later) + [m.name]
  {
    InsertShape(text, cursor, token, m);
    RunsJoin(text[..token.start], MentionText(m), text[cursor..]);
    NamesConcat(earlier + later, [m]);
    NamesConcat(earlier, later);
    ConcatAssoc(Names(earlier), Names(later), [m.name]);
    PrefixCancel(Names(earlier), Runs(MentionText(m)) + Names(later), Names(later) + [m.name]);
  }

  lemma {:induction false} WordsHoldNoSpace(s: string, i: nat)
    requires i < |Runs(s)|
    ensures NoSpace(Runs(s)[i])
    decreases |s|
  {
    if StartsRun(s) {
      WordFits(s[2..]);
      if i > 0 { WordsHoldNoSpace(AfterRun(s), i - 1); }
    } else {
      WordsHoldNoSpace(s[1..], i);
    }
  }

  /** One marker whose name holds a space, wherever it stands, and the whole text is sent without links. */
  lemma {:induction false} SpacedNameFallsBack(text: string, markers: seq<Marker>, m: Marker)
    requires m in markers && !NoSpace(m.name)
    ensures !Linkable(text, markers) && Serialized(text, markers) == Strip(text)
  {
    var i :| 0 <= i < |markers| && markers[i] == m;
    assert Names(markers)[i] == m.name;
    if Linkable(text, markers) { WordsHoldNoSpace(text, i); }
  }

  lemma {:induction false} PlainRuns(s: string)
    requires NoSentinel(s)
    ensures Runs(s) == [] && Linkable(s, [])
  {
    PlainText(s, []);
    assert s + [] == s;
  }

  lemma {:induction false} JoinLinks(before: string, markers: seq<Marker>, mention: string, m: Marker, after: string)
    requires EndsWord(before) && Linkable(before, markers)
    requires EndsWord(mention) && Linkable(mention, [m]) && NoSentinel(after)
    ensures Linkable(before + (mention + after), markers + [m])
    ensures Serialized(before + (mention + after), markers + [m])
         == Serialized(before, markers) + (Serialized(mention, [m]) + after)
  {
    PlainRuns(after);
    SerializedConcat(mention, [m], after, []);
    assert [m] + [] == [m];
    SerializedConcat(before, markers, mention + after, [m]);
    SerializedPlain(after, []);
  }

  lemma {:induction false} SerializedConcat(a: string, ma: seq<Marker>, b: string, mb: seq<Marker>)
    requires EndsWord(a) && Linkable(a, ma) && Linkable(b, mb)
    ensures Linkable(a + b, ma + mb)
    ensures Serialized(a + b, ma + mb) == Serialized(a, ma) + Serialized(b, mb)
  {
    PiecesConcat(a, ma, b, mb);
    WriteConcat(Pieces(a, ma), Pieces(b, mb), Shown);
  }

  /** With no sentinel from the token on: the serialized prefix, the new link, a space and the untouched suffix. */
  lemma {:induction false} InsertLinks(text: string, cursor: nat, token: Token, m: Marker, markers: seq<Marker>)
    requires TokenAt(text, cursor, token.start) && token.query == text[token.start + 1..cursor]
    requires Linkable(text[..token.start], markers) && NoSentinel(text[cursor..]) && NoSpace(m.name)
    ensures var r := InsertMention(text, token.start, |token.query|, m);
      && Linkable(r.text, markers + [r.marker])
      && Serialized(r.text, markers + [r.marker])
         == Serialized(text[..token.start], markers) + ((LinkText(m) + " ") + text[cursor..])
  {
    InsertShape(text, cursor, token, m);
    MentionRuns(m);
    JoinLinks(text[..token.start], markers, MentionText(m), m, text[cursor..]);
  }

  /** After an insertion the cursor stands behind a space: no suggestion bar, and the suffix is untouched. */
  lemma {:induction false} InsertLeavesToken(text: string, cursor: nat, token: Token, m: Marker)
    requires TokenAt(text, cursor, token.start) && token.query == text[token.start + 1..cursor]
    ensures var r := InsertMention(text, token.start, |token.query|, m);
      && 0 < r.cursor <= |r.text| && r.text[r.cursor..] == text[cursor..]
      && forall start :: !TokenAt(r.text, r.cursor, start)
  {
    InsertedText(text, token.start, cursor, token.query, m);
    NoTokenBehindSpace(InsertMention(text, token.start, |token.query|, m).text,
                       InsertMention(text, token.start, |token.query|, m).cursor);
  }

  lemma {:induction false} NoTokenBehindSpace(text: string, cursor: nat)
    requires 0 < cursor <= |text| && text[cursor - 1] == ' '
    ensures forall start :: !TokenAt(text, cursor, start)
  {
    Delimiters();
  }

  // ---------------------------------------------------------------- a whole message

  /** The user types some text, then `@query`, and picks a mention. */
  datatype Turn = Turn(typed: string, query: string, mention: Marker)

  datatype Draft = Draft(text: string, markers: seq<Marker>)

  ghost predicate ValidTurn(t: Turn) {
    && NoSentinel(t.typed) && NoSentinel(t.query) && NoSpace(t.query) && '@' !in t.query && NoSpace(t.mention.name)
    && (t.typed != [] ==> IsSpace(t.typed[|t.typed| - 1]))
  }

  /** The draft after some turns, each picked at the end of the text, at the token that is there. */
  function Compose(turns: seq<Turn>): Draft {
    if turns == [] then Draft("", [])
    else
      var t := turns[|turns| - 1];
      var d := Compose(turns[..|turns| - 1]);
      var r := InsertMention(d.text + t.typed + "@" + t.query, |d.text + t.typed|, |t.query|, t.mention);
      Draft(r.text, d.markers + [r.marker])
  }

  function Sent(turns: seq<Turn>): string {
    if turns == [] then ""
    else
      var t := turns[|turns| - 1];
      Sent(turns[..|turns| - 1]) + t.typed + LinkText(t.mention) + " "
  }

  /** Any number of mentions, picked one after another while typing, are all sent as links, in order. */
  lemma {:induction false} EveryPickLinks(turns: seq<Turn>, last: string)
    requires forall i :: 0 <= i < |turns| ==> ValidTurn(turns[i])
    requires NoSentinel(last)
    ensures Drafted(turns)
    ensures Linkable(Compose(turns).text + last, Compose(turns).markers)
    ensures Serialized(Compose(turns).text + last, Compose(turns).markers) == Sent(turns) + last
    decreases |turns|
  {
    Composes(turns);
    AppendPlain(Compose(turns), last);
  }

  /** What every turn keeps. */
  ghost predicate Drafted(turns: seq<Turn>) {
    var d := Compose(turns);
    Linkable(d.text, d.markers) && EndsWord(d.text) && |d.markers| == |turns| && Serialized(d.text, d.markers) == Sent(turns)
  }

  lemma {:induction false} Composes(turns: seq<Turn>)
    requires forall i :: 0 <= i < |turns| ==> ValidTurn(turns[i])
    ensures Drafted(turns)
    decreases |turns|
  {
    if turns == [] {
      SerializedPlain("", []);
      assert Linkable("", []);
    } else {
      var n := |turns| - 1;
      Composes(turns[..n]);
      TakeTurn(Compose(turns[..n]), turns[n]);
      var t := turns[n];
      ConcatAssoc(Sent(turns[..n]), t.typed, LinkText(t.mention) + " ");
      ConcatAssoc(Sent(turns[..n]) + t.typed, LinkText(t.mention), " ");
    }
  }

  /** The token is where the turn says, and the pick links there. */
  lemma {:induction false} TakeTurn(d: Draft, t: Turn)
    requires Linkable(d.text, d.markers) && EndsWord(d.text) && ValidTurn(t)
    ensures TokenAt(d.text + t.typed + "@" + t.query, |d.text + t.typed + "@" + t.query|, |d.text + t.typed|)
    ensures var r := InsertMention(d.text + t.typed + "@" + t.query, |d.text + t.typed|, |t.query|, t.mention);
      && Linkable(r.text, d.markers + [r.marker]) && EndsWord(r.text)
      && Serialized(r.text, d.markers + [r.marker])
         == Serialized(d.text, d.markers) + t.typed + (LinkText(t.mention) + " ")
  {
    var typed := d.text + t.typed;
    var text := typed + "@" + t.query;
    var token := Token(|typed|, t.query);
    assert EndsWord(typed);
    TokenAtEnd(typed, t.query);
    AppendPlain(d, t.typed);
    InsertLinks(text, |text|, token, t.mention, d.markers);
    InsertShape(text, |text|, token, t.mention);
    var shown := LinkText(t.mention) + " ";
    assert shown + [] == shown;
    assert EndsWord(MentionText(t.mention)) && MentionText(t.mention) + [] == MentionText(t.mention);
    EndsWordConcat(typed, MentionText(t.mention));
  }

  lemma {:induction false} TokenAtEnd(typed: string, query: string)
    requires EndsWord(typed) && NoSpace(query) && '@' !in query
    ensures var text := typed + "@" + query;
      && TokenAt(text, |text|, |typed|) && text[..|typed|] == typed && text[|text|..] == []
      && text[|typed| + 1..|text|] == query
  {
    var text := typed + "@" + query;
    var prefix := typed + "@";
    assert text[|prefix|..] == query;
    forall i | |typed| < i < |text| ensures text[i] != '@' && !IsSpace(text[i]) {
      assert text[i] == query[i - |prefix|];
    }
    if typed != [] { assert text[|typed| - 1] == typed[|typed| - 1]; }
  }

  lemma {:induction false} EndsWordConcat(a: string, b: string)
    requires EndsWord(b) && b != []
    ensures EndsWord(a + b)
  {
    assert (a + b)[|a + b| - 1] == b[|b| - 1];
  }

  lemma {:induction false} AppendPlain(d: Draft, last: string)
    requires Linkable(d.text, d.markers) && EndsWord(d.text) && NoSentinel(last)
    ensures Linkable(d.text + last, d.markers)
    ensures Serialized(d.text + last, d.markers) == Serialized(d.text, d.markers) + last
  {
    PlainRuns(last);
    SerializedConcat(d.text, d.markers, last, []);
    assert d.markers + [] == d.markers;
    SerializedPlain(last, []);
  }
}
