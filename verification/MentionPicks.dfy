/** Which person each link names after a pick (apps/mobile/lib/mention-serialize.ts). */
module MentionPicks {
  import opened Lists
  import opened Spaces
  import opened Mentions

  /** Identifiers are UUIDs or the word "all": no closing parenthesis ends a link early. */
  predicate PlainId(m: Marker) {
    ')' !in m.id
  }

  ghost predicate PlainIds(ms: seq<Marker>) {
    forall m :: m in ms ==> PlainId(m)
  }

  // ---------------------------------------------------------------- a link can be read back

  lemma {:induction false} LabelsApart(name: string, a: string, b: string)
    ensures name + "]" + a != "@" + name + "]" + b
  {
    var s, t := name + "]" + a, "@" + name + "]" + b;
    assert s[|name|] == ']' && t[|name|] == ("@" + name)[|name|];
    if s == t { AllAts(name, a, b, |name|); }
  }

  lemma {:induction false} AllAts(name: string, a: string, b: string, n: nat)
    requires name + "]" + a == "@" + name + "]" + b && n <= |name|
    ensures forall k :: 0 <= k < n ==> name[k] == '@'
  {
    if n > 0 {
      AllAts(name, a, b, n - 1);
      assert (name + "]" + a)[n - 1] == name[n - 1];
      assert ("@" + name + "]" + b)[n - 1] == ("@" + name)[n - 1];
    }
  }

  lemma {:induction false} LinkParts(m: Marker, a: string)
    ensures LinkText(m) + a
         == "[" + (Label(m) + "]" + ("(mention://" + (TypeName(m.kind) + ['/'] + (m.id + [')'] + a))))
  {
    var body := TypeName(m.kind) + ['/'] + (m.id + ")");
    LinkShape(m);
    assert LinkText(m) == "[" + LinkText(m)[1..];
    Regroup("[", Label(m), "]", "(mention://", TypeName(m.kind), "/", m.id, ")", a);
  }

  lemma {:induction false} Regroup(open: string, name: string, shut: string, scheme: string,
                                   kind: string, slash: string, id: string, end: string, a: string)
    ensures (open + (name + shut + (scheme + (kind + slash + (id + end))))) + a
         == open + (name + shut + (scheme + (kind + slash + (id + end + a))))
  {
  }

  /** Two links of one name, each with a text behind it, are the same only if markers and texts are. */
  lemma {:induction false} LinkReadsBack(m: Marker, a: string, n: Marker, b: string)
    requires m.name == n.name && PlainId(m) && PlainId(n) && LinkText(m) + a == LinkText(n) + b
    ensures m == n && a == b
  {
    var x := TypeName(m.kind) + ['/'] + (m.id + [')'] + a);
    var y := TypeName(n.kind) + ['/'] + (n.id + [')'] + b);
    var scheme := "(mention://";
    LinkParts(m, a);
    LinkParts(n, b);
    PrefixCancel("[", Label(m) + "]" + (scheme + x), Label(n) + "]" + (scheme + y));
    if m.kind.Issue? != n.kind.Issue? {
      if m.kind.Issue? { LabelsApart(m.name, scheme + x, scheme + y); } else { LabelsApart(m.name, scheme + y, scheme + x); }
    } else {
      PrefixCancel(Label(m) + "]", scheme + x, scheme + y);
      PrefixCancel(scheme, x, y);
      SplitAtFirst(TypeName(m.kind), m.id + [')'] + a, TypeName(n.kind), n.id + [')'] + b, '/');
      SplitAtFirst(m.id, a, n.id, b, ')');
      assert TypeName(m.kind)[0] == TypeName(n.kind)[0] && TypeName(m.kind)[1] == TypeName(n.kind)[1];
    }
  }

  // ---------------------------------------------------------------- the text tells the markers

  lemma {:induction false} RenderCons(p: Piece, ps: seq<Piece>)
    ensures Render([p] + ps) == Shown(p) + Render(ps)
  {
    WriteConcat([p], ps, Shown);
    assert [p][..0] == [];
  }

  /** The same text with two lists of markers renders alike only if the lists are the same. */
  lemma {:induction false} RenderTellsMarkers(s: string, ms: seq<Marker>, ns: seq<Marker>)
    requires Linkable(s, ms) && Linkable(s, ns) && PlainIds(ms) && PlainIds(ns)
    requires Render(Pieces(s, ms)) == Render(Pieces(s, ns))
    ensures ms == ns
    decreases |s|
  {
    if s == [] {
      assert |Names(ms)| == |ms| && |Names(ns)| == |ns|;
    } else if StartsRun(s) {
      RunStep(s, ms);
      RunStep(s, ns);
      var a, b := Pieces(AfterRun(s), ms[1..]), Pieces(AfterRun(s), ns[1..]);
      RenderCons(Link(ms[0]), a);
      RenderCons(Link(ns[0]), b);
      assert ms == [ms[0]] + ms[1..] && ns == [ns[0]] + ns[1..];
      LinkReadsBack(ms[0], Render(a), ns[0], Render(b));
      RenderTellsMarkers(AfterRun(s), ms[1..], ns[1..]);
    } else if s[0] == SENTINEL {
      RenderTellsMarkers(s[1..], ms, ns);
    } else {
      RenderCons(Chr(s[0]), Pieces(s[1..], ms));
      RenderCons(Chr(s[0]), Pieces(s[1..], ns));
      PrefixCancel([s[0]], Render(Pieces(s[1..], ms)), Render(Pieces(s[1..], ns)));
      RenderTellsMarkers(s[1..], ms, ns);
    }
  }

  lemma {:induction false} StripFits(s: string)
    ensures |Strip(s)| <= |s|
  {
    if s != [] { StripFits(s[1..]); }
  }

  lemma {:induction false} LinksAreLonger(ps: seq<Piece>)
    ensures |Render(ps)| >= |Unlink(ps)| + |Linked(ps)|
    decreases |ps|
  {
    if ps != [] {
      var p := ps[|ps| - 1];
      LinksAreLonger(ps[..|ps| - 1]);
      if p.Link? {
        LinkShape(p.m);
        assert |Label(p.m)| >= |p.m.name|;
      }
    }
  }

  /** A text with links is longer than its fallback. */
  lemma {:induction false} LinkedIsLonger(s: string, ms: seq<Marker>)
    requires Linkable(s, ms)
    ensures |Render(Pieces(s, ms))| >= |Strip(s)| + |ms|
  {
    PiecesKeepText(s, ms);
    PiecesLinkInOrder(s, ms);
    StripFits(Unlink(Pieces(s, ms)));
    LinksAreLonger(Pieces(s, ms));
  }

  /** What is sent tells the markers: any other list gives another text. */
  lemma {:induction false} SentTellsMarkers(s: string, ms: seq<Marker>, ns: seq<Marker>)
    requires Linkable(s, ns) && ns != [] && PlainIds(ms) && PlainIds(ns)
    ensures Serialized(s, ms) == Serialized(s, ns) <==> ms == ns
  {
    LinkedIsLonger(s, ns);
    if Linkable(s, ms) && Serialized(s, ms) == Serialized(s, ns) { RenderTellsMarkers(s, ms, ns); }
  }

  // ---------------------------------------------------------------- a pick before other mentions

  lemma {:induction false} Rotates<T>(s: seq<T>, x: T)
    ensures s + [x] == [x] + s <==> forall i :: 0 <= i < |s| ==> s[i] == x
  {
    if s + [x] == [x] + s { RotatesTo(s, x, |s|); }
  }

  lemma {:induction false} RotatesTo<T>(s: seq<T>, x: T, n: nat)
    requires s + [x] == [x] + s && n <= |s|
    ensures forall i :: 0 <= i < n ==> s[i] == x
  {
    if n > 0 {
      RotatesTo(s, x, n - 1);
      assert (s + [x])[n - 1] == s[n - 1] && ([x] + s)[n - 1] == if n == 1 then x else s[n - 2];
    }
  }

  /** The text that links every mention to the marker it was picked with. */
  function Intended(before: string, earlier: seq<Marker>, m: Marker, after: string, later: seq<Marker>): string {
    Serialized(before, earlier) + ((LinkText(m) + " ") + Serialized(after, later))
  }

  lemma {:induction false} IntendedIsInOrder(before: string, earlier: seq<Marker>, m: Marker, after: string, later: seq<Marker>)
    requires EndsWord(before) && Linkable(before, earlier) && Linkable(after, later) && NoSpace(m.name)
    ensures var s := before + (MentionText(m) + after);
      Linkable(s, earlier + ([m] + later)) && Serialized(s, earlier + ([m] + later)) == Intended(before, earlier, m, after, later)
  {
    MentionRuns(m);
    MentionEndsWord(m);
    SerializedConcat(MentionText(m), [m], after, later);
    SerializedConcat(before, earlier, MentionText(m) + after, [m] + later);
  }

  /**
   * A mention is picked for the token at the cursor, with `earlier` markers for the text before it and `later` ones
   * for the text behind it; the new marker goes to the end of the list. Every mention is then sent with the marker
   * it was picked with if and only if its name holds no space and all later markers are that very marker, in
   * particular when nothing is mentioned behind the cursor. With a space in it, or a later marker of another name,
   * the text falls back; otherwise some mention is sent as a link to someone else of that name.
   */
  lemma {:induction false} InsertThenSerialize(text: string, cursor: nat, token: Token, m: Marker,
                                               earlier: seq<Marker>, later: seq<Marker>)
    requires TokenAt(text, cursor, token.start) && token.query == text[token.start + 1..cursor]
    requires Linkable(text[..token.start], earlier) && Linkable(text[cursor..], later)
    requires PlainId(m) && PlainIds(earlier) && PlainIds(later)
    ensures var r := InsertMention(text, token.start, |token.query|, m);
      Serialized(r.text, earlier + later + [r.marker]) == Intended(text[..token.start], earlier, m, text[cursor..], later)
      <==> NoSpace(m.name) && forall i :: 0 <= i < |later| ==> later[i] == m
    ensures var r := InsertMention(text, token.start, |token.query|, m);
      Serialized(r.text, earlier + later + [r.marker]) == Strip(r.text)
      <==> !NoSpace(m.name) || exists i :: 0 <= i < |later| && later[i].name != m.name
  {
    var s := InsertMention(text, token.start, |token.query|, m).text;
    var before, after, ms := text[..token.start], text[cursor..], earlier + later + [m];
    InsertShape(text, cursor, token, m);
    if NoSpace(m.name) {
      PlainPick(before, earlier, m, after, later);
      NamesRotate(text, cursor, token, m, earlier, later);
      if Linkable(s, ms) { LinkedIsLonger(s, ms); }
    } else {
      SpacedNameFallsBack(s, ms, m);
      IntendedIsLonger(before, earlier, m, after, later);
    }
  }

  lemma {:induction false} PlainPick(before: string, earlier: seq<Marker>, m: Marker, after: string, later: seq<Marker>)
    requires EndsWord(before) && Linkable(before, earlier) && Linkable(after, later)
    requires NoSpace(m.name) && PlainId(m) && PlainIds(earlier) && PlainIds(later)
    ensures Serialized(before + (MentionText(m) + after), earlier + later + [m]) == Intended(before, earlier, m, after, later)
      <==> forall i :: 0 <= i < |later| ==> later[i] == m
  {
    IntendedIsInOrder(before, earlier, m, after, later);
    SentTellsMarkers(before + (MentionText(m) + after), earlier + later + [m], earlier + ([m] + later));
    ConcatAssoc(earlier, later, [m]);
    PrefixCancel(earlier, later + [m], [m] + later);
    Rotates(later, m);
  }

  lemma {:induction false} IntendedIsLonger(before: string, earlier: seq<Marker>, m: Marker, after: string,
                                            later: seq<Marker>)
    requires Linkable(before, earlier) && Linkable(after, later)
    ensures |Intended(before, earlier, m, after, later)| > |Strip(before + (MentionText(m) + after))|
  {
    StripConcat(before, MentionText(m) + after);
    StripConcat(MentionText(m), after);
    StripFits(MentionText(m));
    LinkShape(m);
    LinkedIsLonger(before, earlier);
    LinkedIsLonger(after, later);
  }

  lemma {:induction false} NamesRotate(text: string, cursor: nat, token: Token, m: Marker,
                                       earlier: seq<Marker>, later: seq<Marker>)
    requires TokenAt(text, cursor, token.start) && token.query == text[token.start + 1..cursor]
    requires Linkable(text[..token.start], earlier) && Linkable(text[cursor..], later)
    requires NoSpace(m.name)
    ensures var r := InsertMention(text, token.start, |token.query|, m);
      Linkable(r.text, earlier + later + [m]) <==> forall i :: 0 <= i < |later| ==> later[i].name == m.name
  {
    InsertLinkable(text, cursor, token, m, earlier, later);
    MentionRuns(m);
    Rotates(Names(later), m.name);
    assert forall i :: 0 <= i < |later| ==> Names(later)[i] == later[i].name;
  }

  // ---------------------------------------------------------------- two people of one name

  /** A second person of the same name, picked in front of the first: each mention is sent as the other person. */
  lemma {:induction false} SwappedPicks(first: Marker, second: Marker)
    requires first.name == second.name && NoSpace(first.name)
    ensures var text := "@" + (" " + MentionText(first));
      && TokenAt(text, 1, 0) && Linkable(text[..0], []) && Linkable(text[1..], [first])
      && Serialized(InsertMention(text, 0, 0, second).text, [first] + [second])
         == (LinkText(first) + " ") + (" " + (LinkText(second) + " "))
  {
    var after := " " + MentionText(first);
    var text := "@" + after;
    assert text[1..] == after && text[..0] == [] && text[1..1] == [];
    MentionRuns(first);
    MentionRuns(second);
    assert MentionText(first) == MentionText(second);
    Delimiters();
    SerializedPlain(" ", []);
    PlainRuns(" ");
    SerializedConcat(" ", [], MentionText(first), [first]);
    SerializedConcat(" ", [], MentionText(second), [second]);
    assert [] + [first] == [first] && [] + [second] == [second];
    InsertedText(text, 0, 1, "", second);
    assert [] + (MentionText(second) + after) == MentionText(second) + after;
    MentionEndsWord(first);
    SerializedConcat(MentionText(first), [first], after, [second]);
  }

  /** Two such people. */
  lemma {:induction false} SwappedExample()
    ensures var first, second := Marker(Member, "1", "bo"), Marker(Member, "2", "bo");
      first.name == second.name && NoSpace(first.name) && PlainId(first) && PlainId(second) && first != second
  {
    InRangesAt('b' as int, SPACES);
    InRangesAt('o' as int, SPACES);
  }
}
