/** Which lines the logfmt parser accepts (internal/container/logfmt.go), said without its states. */
module LogFmtGrammar {
  import opened LogFmt

  // ---- The grammar ----

  predicate KeyAt(s: string, p: nat, e: nat) {
    p < e < |s| && s[e] == '=' && s[p] != '=' && forall k :: p < k < e ==> s[k] != '=' && s[k] != ' '
  }

  predicate PlainAt(s: string, v: nat, w: nat) {
    v <= w <= |s| && forall k :: v <= k < w ==> s[k] != ' ' && s[k] != '"'
  }

  /** A bare value: without space or quote, up to a space or the end. */
  predicate BareAt(s: string, v: nat, w: nat) { PlainAt(s, v, w) && (w < |s| ==> s[w] == ' ') }

  /** A quoted value: between two quotes, every quote within escaped; what stands before it is ignored. */
  predicate QuotedAt(s: string, v: nat, w: nat, c: nat) {
    PlainAt(s, v, w) && w < c < |s| && s[w] == '"' && s[c] == '"' && EscapeClosed(s[w + 1..c], false)
  }

  /** One field stands at p: a key, "=", a bare value; the next field begins behind the space that ends it. */
  predicate BareField(s: string, p: nat, e: nat, w: nat, pair: Pair, next: nat) {
    && KeyAt(s, p, e) && BareAt(s, e + 1, w) && pair == (s[p..e], s[e + 1..w])
    && next == if w == |s| then w else w + 1
  }

  /** The same with a quoted value; the character behind it is ignored, but must not be "=". */
  predicate QuotedField(s: string, p: nat, e: nat, w: nat, c: nat, pair: Pair, next: nat) {
    && KeyAt(s, p, e) && QuotedAt(s, e + 1, w, c) && pair == (s[p..e], s[w + 1..c])
    && (if c + 1 == |s| then next == c + 1 else s[c + 1] != '=' && next == c + 2)
  }

  ghost predicate OneField(s: string, p: nat, pair: Pair, next: nat) {
    || (exists e: nat, w: nat :: BareField(s, p, e, w, pair, next))
    || (exists e: nat, w: nat, c: nat :: QuotedField(s, p, e, w, c, pair, next))
  }

  /** From p to the end the text is these fields. */
  ghost predicate Fields(s: string, p: nat, written: seq<Pair>)
    decreases |written|
  {
    if written == [] then p == |s|
    else exists next: nat :: OneField(s, p, written[0], next) && Fields(s, next, written[1..])
  }

  /** The pairs are set one after the other. */
  function SetPairs(pairs: seq<Pair>, written: seq<Pair>): seq<Pair>
    decreases |written|
  {
    if written == [] then pairs else SetPairs(Set(pairs, written[0].0, written[0].1), written[1..])
  }

  // ---- Reading by separators ----

  /** The first of these characters at or after i; |s| if there is none. */
  function FirstOf(s: string, i: nat, stops: set<char>): (j: nat)
    requires i <= |s|
    ensures i <= j <= |s| && (j < |s| ==> s[j] in stops) && forall k :: i <= k < j ==> s[k] !in stops
    decreases |s| - i
  {
    if i == |s| || s[i] in stops then i else FirstOf(s, i + 1, stops)
  }

  lemma FirstIs(s: string, i: nat, stops: set<char>, j: nat)
    requires i <= j <= |s| && (j < |s| ==> s[j] in stops) && forall k :: i <= k < j ==> s[k] !in stops
    ensures FirstOf(s, i, stops) == j
  {
  }

  /** The quote that ends what is quoted from i on; |s| if there is none. */
  function CloseOf(s: string, i: nat, escaping: bool): (j: nat)
    requires i <= |s|
    ensures i <= j <= |s|
    decreases |s| - i
  {
    if i == |s| then i
    else if escaping then CloseOf(s, i + 1, false)
    else if s[i] == '"' then i
    else CloseOf(s, i + 1, s[i] == '\\')
  }

  lemma {:induction false} CloseEndsQuote(s: string, i: nat, escaping: bool)
    requires i <= |s|
    ensures var c := CloseOf(s, i, escaping); c < |s| ==> s[c] == '"' && EscapeClosed(s[i..c], escaping)
    decreases |s| - i
  {
    var c := CloseOf(s, i, escaping);
    if c < |s| && c > i {
      CloseEndsQuote(s, i + 1, !escaping && s[i] == '\\');
      assert s[i..c][1..] == s[i + 1..c];
    }
  }

  lemma {:induction false} ClosedIsClose(s: string, i: nat, c: nat, escaping: bool)
    requires i <= c < |s| && s[c] == '"' && EscapeClosed(s[i..c], escaping)
    ensures CloseOf(s, i, escaping) == c
    decreases c - i
  {
    if i < c {
      assert s[i..c][1..] == s[i + 1..c];
      ClosedIsClose(s, i + 1, c, !escaping && s[i] == '\\');
    }
  }

  datatype Reading = Got(pair: Pair, next: nat) | Stop(problem: Problem)

  /** What is made of the text behind the closing quote at c. */
  function Closed(s: string, pair: Pair, c: nat): (r: Reading)
    requires c < |s|
    ensures r.Got? ==> c < r.next <= |s|
  {
    if c + 1 == |s| then Got(pair, c + 1) else if s[c + 1] == '=' then Stop(EmptyKey) else Got(pair, c + 2)
  }

  /** The value that begins at v. */
  function ReadValue(s: string, key: string, v: nat): (r: Reading)
    requires v <= |s|
    ensures r.Got? ==> v <= r.next <= |s|
  {
    var w := FirstOf(s, v, {' ', '"'});
    if w == |s| then Got((key, s[v..w]), w)
    else if s[w] == ' ' then Got((key, s[v..w]), w + 1)
    else
      var c := CloseOf(s, w + 1, false);
      if c == |s| then Stop(UnclosedQuotes) else Closed(s, (key, s[w + 1..c]), c)
  }

  /** The field that begins at p. */
  function ReadField(s: string, p: nat): (r: Reading)
    requires p < |s|
    ensures r.Got? ==> p < r.next <= |s|
  {
    var e := FirstOf(s, p + 1, {'=', ' '});
    if s[p] == '=' then Stop(EmptyKey)
    else if e == |s| then Stop(KeyWithoutValue)
    else if s[e] == ' ' then Stop(SpaceInKey)
    else ReadValue(s, s[p..e], e + 1)
  }

  lemma KeyIsRead(s: string, p: nat, e: nat)
    requires KeyAt(s, p, e)
    ensures ReadField(s, p) == ReadValue(s, s[p..e], e + 1)
  {
    FirstIs(s, p + 1, {'=', ' '}, e);
  }

  lemma QuoteIsRead(s: string, key: string, v: nat, w: nat)
    requires PlainAt(s, v, w) && w < |s| && s[w] == '"'
    ensures ReadValue(s, key, v) ==
            var c := CloseOf(s, w + 1, false);
            if c == |s| then Stop(UnclosedQuotes) else Closed(s, (key, s[w + 1..c]), c)
  {
    FirstIs(s, v, {' ', '"'}, w);
  }

  /** A field is read exactly if one stands there. */
  lemma ReadIsField(s: string, p: nat)
    requires p < |s| && ReadField(s, p).Got?
    ensures OneField(s, p, ReadField(s, p).pair, ReadField(s, p).next)
  {
    var r, e := ReadField(s, p), FirstOf(s, p + 1, {'=', ' '});
    var w := FirstOf(s, e + 1, {' ', '"'});
    assert KeyAt(s, p, e) && PlainAt(s, e + 1, w);
    if w < |s| && s[w] == '"' {
      var c := CloseOf(s, w + 1, false);
      CloseEndsQuote(s, w + 1, false);
      assert QuotedField(s, p, e, w, c, r.pair, r.next);
    } else {
      assert BareField(s, p, e, w, r.pair, r.next);
    }
  }

  lemma BareIsRead(s: string, p: nat, e: nat, w: nat, pair: Pair, next: nat)
    requires BareField(s, p, e, w, pair, next)
    ensures ReadField(s, p) == Got(pair, next)
  {
    KeyIsRead(s, p, e);
    FirstIs(s, e + 1, {' ', '"'}, w);
  }

  lemma CloseOfQuoted(s: string, v: nat, w: nat, c: nat)
    requires QuotedAt(s, v, w, c)
    ensures CloseOf(s, w + 1, false) == c
  {
    ClosedIsClose(s, w + 1, c, false);
  }

  lemma QuotedIsRead(s: string, p: nat, e: nat, w: nat, c: nat, pair: Pair, next: nat)
    requires QuotedField(s, p, e, w, c, pair, next)
    ensures ReadField(s, p) == Got(pair, next)
  {
    KeyIsRead(s, p, e);
    QuoteIsRead(s, s[p..e], e + 1, w);
    CloseOfQuoted(s, e + 1, w, c);
  }

  lemma FieldIsRead(s: string, p: nat, pair: Pair, next: nat)
    requires OneField(s, p, pair, next)
    ensures p < |s| && ReadField(s, p) == Got(pair, next)
  {
    if e: nat, w: nat :| BareField(s, p, e, w, pair, next) {
      BareIsRead(s, p, e, w, pair, next);
    } else {
      var e: nat, w: nat, c: nat :| QuotedField(s, p, e, w, c, pair, next);
      QuotedIsRead(s, p, e, w, c, pair, next);
    }
  }

  // ---- The parser reads field by field ----

  lemma {:induction false} SkipKey(s: string, p: nat, i: nat, st: State)
    requires p < i <= |s| && st.mode == Key && st.start == p && s[p] != '='
    requires forall k :: p < k < i ==> s[k] != '=' && s[k] != ' '
    ensures ParseFrom(s, p, st) == ParseFrom(s, i, st)
    decreases i
  {
    if i > p + 1 {
      SkipKey(s, p, i - 1, st);
    }
  }

  lemma KeyEnds(s: string, p: nat, e: nat, st: State)
    requires p < e <= |s| && st.mode == Key && st.start == p && (e < |s| ==> s[e] == '=' || s[e] == ' ')
    ensures ParseFrom(s, e, st) ==
            if e == |s| then Bad(KeyWithoutValue)
            else if s[e] == ' ' then Bad(SpaceInKey)
            else ParseFrom(s, e + 1, State(Value, e + 1, s[p..e], st.pairs))
  {
  }

  lemma {:induction false} SkipBare(s: string, v: nat, i: nat, st: State)
    requires v <= i <= |s| && st.mode == Value && st.start == v
    requires forall k :: v <= k < i ==> s[k] != ' ' && s[k] != '"'
    ensures ParseFrom(s, v, st) == ParseFrom(s, i, st)
    decreases i
  {
    if i > v {
      SkipBare(s, v, i - 1, st);
    }
  }

  lemma {:induction false} SkipQuoted(s: string, i: nat, st: State)
    requires i <= |s| && (st.mode == Quoted || st.mode == Escaped) && st.start <= i
    ensures var c := CloseOf(s, i, st.mode == Escaped);
            ParseFrom(s, i, st) ==
            if c == |s| then Bad(UnclosedQuotes)
            else ParseFrom(s, c + 1, State(Key, c + 2, st.key, Set(st.pairs, st.key, s[st.start..c])))
    decreases |s| - i
  {
    if i < |s| && !(st.mode == Quoted && s[i] == '"') {
      SkipQuoted(s, i + 1, Step(s, i, st).state);
    }
  }

  /** The character behind a closing quote is passed over unless it is "=". */
  lemma BehindQuote(s: string, i: nat, st: State)
    requires i <= |s| && st.mode == Key && st.start == i + 1
    ensures ParseFrom(s, i, st) ==
            if i == |s| then Ok(st.pairs) else if s[i] == '=' then Bad(EmptyKey) else ParseFrom(s, i + 1, st)
  {
  }

  /** The parser is at the beginning of a field. */
  predicate Fresh(s: string, p: nat, st: State) { p <= |s| && st.mode == Key && st.start == p }

  /** The state in which the parser goes on. */
  function Behind(st: State, r: Reading): State
    requires r.Got?
  {
    State(Key, r.next, r.pair.0, Set(st.pairs, r.pair.0, r.pair.1))
  }

  function GoOn(s: string, st: State, r: Reading): Parsed
    requires r.Got? ==> r.next <= |s|
  {
    match r case Stop(problem) => Bad(problem) case Got(_, next) => ParseFrom(s, next, Behind(st, r))
  }

  lemma BareGoesOn(s: string, v: nat, w: nat, st: State)
    requires st.mode == Value && st.start == v <= w <= |s| && (w < |s| ==> s[w] == ' ')
    ensures ParseFrom(s, w, st) == GoOn(s, st, Got((st.key, s[v..w]), if w == |s| then w else w + 1))
  {
    assert w == |s| ==> s[v..] == s[v..w];
  }

  lemma QuoteOpens(s: string, w: nat, st: State)
    requires st.mode == Value && st.start <= w < |s| && s[w] == '"'
    ensures ParseFrom(s, w, st) == ParseFrom(s, w + 1, State(Quoted, w + 1, st.key, st.pairs))
  {
  }

  lemma ClosedGoesOn(s: string, c: nat, pair: Pair, st: State)
    requires c < |s|
    ensures ParseFrom(s, c + 1, State(Key, c + 2, pair.0, Set(st.pairs, pair.0, pair.1))) ==
            GoOn(s, st, Closed(s, pair, c))
  {
    var behind := State(Key, c + 2, pair.0, Set(st.pairs, pair.0, pair.1));
    BehindQuote(s, c + 1, behind);
  }

  lemma QuotedGoesOn(s: string, w: nat, st: State)
    requires st.mode == Value && st.start <= w < |s| && s[w] == '"' && PlainAt(s, st.start, w)
    ensures ParseFrom(s, w, st) == GoOn(s, st, ReadValue(s, st.key, st.start))
  {
    QuoteOpens(s, w, st);
    QuoteIsRead(s, st.key, st.start, w);
    QuoteGoesOn(s, w, st);
  }

  lemma QuoteGoesOn(s: string, w: nat, st: State)
    requires w < |s|
    ensures var c := CloseOf(s, w + 1, false);
            ParseFrom(s, w + 1, State(Quoted, w + 1, st.key, st.pairs)) ==
            GoOn(s, st, if c == |s| then Stop(UnclosedQuotes) else Closed(s, (st.key, s[w + 1..c]), c))
  {
    var c := CloseOf(s, w + 1, false);
    SkipQuoted(s, w + 1, State(Quoted, w + 1, st.key, st.pairs));
    if c < |s| {
      ClosedGoesOn(s, c, (st.key, s[w + 1..c]), st);
    }
  }

  lemma ValueGoesOn(s: string, v: nat, st: State)
    requires v <= |s| && st.mode == Value && st.start == v
    ensures ParseFrom(s, v, st) == GoOn(s, st, ReadValue(s, st.key, v))
  {
    var w := FirstOf(s, v, {' ', '"'});
    SkipBare(s, v, w, st);
    if w < |s| && s[w] == '"' {
      QuotedGoesOn(s, w, st);
    } else {
      BareGoesOn(s, v, w, st);
    }
  }

  lemma EmptyKeyStops(s: string, p: nat, st: State)
    requires Fresh(s, p, st) && p < |s| && s[p] == '='
    ensures ParseFrom(s, p, st) == Bad(EmptyKey)
  {
  }

  lemma FieldGoesOn(s: string, p: nat, st: State)
    requires Fresh(s, p, st) && p < |s|
    ensures ParseFrom(s, p, st) == GoOn(s, st, ReadField(s, p))
  {
    if s[p] == '=' {
      EmptyKeyStops(s, p, st);
    } else {
      KeyGoesOn(s, p, FirstOf(s, p + 1, {'=', ' '}), st);
    }
  }

  lemma KeyGoesOn(s: string, p: nat, e: nat, st: State)
    requires Fresh(s, p, st) && p < |s| && s[p] != '=' && e == FirstOf(s, p + 1, {'=', ' '})
    ensures ParseFrom(s, p, st) == GoOn(s, st, ReadField(s, p))
  {
    SkipKey(s, p, e, st);
    KeyEnds(s, p, e, st);
    if e < |s| && s[e] == '=' {
      ValueGoesOn(s, e + 1, State(Value, e + 1, s[p..e], st.pairs));
    }
  }

  // ---- Accepted and refused ----

  lemma {:induction false} FieldsParse(s: string, p: nat, st: State, written: seq<Pair>)
    requires Fresh(s, p, st) && Fields(s, p, written)
    ensures ParseFrom(s, p, st) == Ok(SetPairs(st.pairs, written))
    decreases |written|
  {
    if written != [] {
      var next: nat :| OneField(s, p, written[0], next) && Fields(s, next, written[1..]);
      FieldIsRead(s, p, written[0], next);
      FieldGoesOn(s, p, st);
      FieldsParse(s, next, Behind(st, ReadField(s, p)), written[1..]);
    }
  }

  lemma {:induction false} ParsedIsFields(s: string, p: nat, st: State) returns (written: seq<Pair>)
    requires Fresh(s, p, st) && ParseFrom(s, p, st).Ok?
    ensures Fields(s, p, written) && ParseFrom(s, p, st) == Ok(SetPairs(st.pairs, written))
    decreases |s| - p
  {
    if p == |s| {
      written := [];
    } else {
      FieldGoesOn(s, p, st);
      ReadIsField(s, p);
      var r := ReadField(s, p);
      var rest := ParsedIsFields(s, r.next, Behind(st, r));
      written := [r.pair] + rest;
      assert written[1..] == rest;
      assert OneField(s, p, written[0], r.next) && Fields(s, r.next, written[1..]);
    }
  }

  /** A line is parsed if and only if it is a sequence of fields, and then to the pairs written in it. */
  lemma ParsedIff(s: string, pairs: seq<Pair>)
    ensures Parse(s) == Ok(pairs) <==> exists written :: Fields(s, 0, written) && pairs == SetPairs([], written)
  {
    var st := State(Key, 0, "", []);
    if Parse(s) == Ok(pairs) {
      var written := ParsedIsFields(s, 0, st);
    }
    forall written | Fields(s, 0, written) && pairs == SetPairs([], written)
      ensures Parse(s) == Ok(pairs)
    {
      FieldsParse(s, 0, st, written);
    }
  }

  ghost predicate NeverCloses(s: string, v: nat, w: nat) { forall c: nat :: !QuotedAt(s, v, w, c) }

  /** A key at p, and a quote at w that is never closed. */
  ghost predicate OpenField(s: string, p: nat, e: nat, w: nat) {
    KeyAt(s, p, e) && PlainAt(s, e + 1, w) && w < |s| && s[w] == '"' && NeverCloses(s, e + 1, w)
  }

  /** A key at p, and a quoted value with "=" right behind it. */
  predicate ClashAt(s: string, p: nat, e: nat, w: nat, c: nat) {
    KeyAt(s, p, e) && QuotedAt(s, e + 1, w, c) && c + 1 < |s| && s[c + 1] == '='
  }

  /** A word, without "=", that a space ends. */
  predicate WordAt(s: string, p: nat, e: nat) {
    p < e < |s| && s[e] == ' ' && s[p] != '=' && forall k :: p < k < e ==> s[k] != '=' && s[k] != ' '
  }

  /** A field that begins with "=", a rest without "=", a word and a space, or a quote left open: whatever
      stands before it, the line is refused. */
  lemma FieldRefused(s: string, p: nat)
    requires p < |s|
    ensures s[p] == '=' ==> ReadField(s, p) == Stop(EmptyKey)
    ensures s[p] != '=' && (forall k :: p < k < |s| ==> s[k] != '=' && s[k] != ' ') ==>
              ReadField(s, p) == Stop(KeyWithoutValue)
    ensures (exists e: nat :: WordAt(s, p, e)) ==> ReadField(s, p) == Stop(SpaceInKey)
  {
    if e: nat :| WordAt(s, p, e) {
      FirstIs(s, p + 1, {'=', ' '}, e);
    }
  }

  lemma OpenQuoteRefused(s: string, p: nat, e: nat, w: nat)
    requires OpenField(s, p, e, w)
    ensures ReadField(s, p) == Stop(UnclosedQuotes)
  {
    KeyIsRead(s, p, e);
    QuoteIsRead(s, s[p..e], e + 1, w);
    NeverCloseOf(s, e + 1, w);
  }

  lemma NeverCloseOf(s: string, v: nat, w: nat)
    requires PlainAt(s, v, w) && w < |s| && s[w] == '"' && NeverCloses(s, v, w)
    ensures CloseOf(s, w + 1, false) == |s|
  {
    CloseEndsQuote(s, w + 1, false);
    assert !QuotedAt(s, v, w, CloseOf(s, w + 1, false));
  }

  lemma ClashRefused(s: string, p: nat, e: nat, w: nat, c: nat)
    requires ClashAt(s, p, e, w, c)
    ensures ReadField(s, p) == Stop(EmptyKey)
  {
    KeyIsRead(s, p, e);
    QuoteIsRead(s, s[p..e], e + 1, w);
    CloseOfQuoted(s, e + 1, w, c);
    assert ReadValue(s, s[p..e], e + 1) == Closed(s, (s[p..e], s[w + 1..c]), c);
  }

  /** The text from 0 to p is these fields, and another begins at p. */
  ghost predicate FieldsUpTo(s: string, from: nat, written: seq<Pair>, p: nat)
    decreases |written|
  {
    if written == [] then from == p
    else exists next: nat :: OneField(s, from, written[0], next) && FieldsUpTo(s, next, written[1..], p)
  }

  lemma {:induction false} StopsAt(s: string, from: nat, st: State, written: seq<Pair>, p: nat)
    requires Fresh(s, from, st) && FieldsUpTo(s, from, written, p) && p < |s| && ReadField(s, p).Stop?
    ensures ParseFrom(s, from, st) == Bad(ReadField(s, p).problem)
    decreases |written|
  {
    FieldGoesOn(s, from, st);
    if written != [] {
      var next: nat :| OneField(s, from, written[0], next) && FieldsUpTo(s, next, written[1..], p);
      FieldIsRead(s, from, written[0], next);
      StopsAt(s, next, Behind(st, ReadField(s, from)), written[1..], p);
    }
  }

  /** Why a line is refused behind any number of fields: no key, no "=", a word and a space, an open quote,
      "=" behind a closing quote. */
  lemma RefusedLines(s: string, written: seq<Pair>, p: nat)
    requires FieldsUpTo(s, 0, written, p) && p < |s|
    ensures s[p] == '=' ==> Parse(s) == Bad(EmptyKey)
    ensures s[p] != '=' && (forall k :: p < k < |s| ==> s[k] != '=' && s[k] != ' ') ==> Parse(s) == Bad(KeyWithoutValue)
    ensures (exists e: nat :: WordAt(s, p, e)) ==> Parse(s) == Bad(SpaceInKey)
    ensures (exists e: nat, w: nat :: OpenField(s, p, e, w)) ==> Parse(s) == Bad(UnclosedQuotes)
    ensures (exists e: nat, w: nat, c: nat :: ClashAt(s, p, e, w, c)) ==> Parse(s) == Bad(EmptyKey)
  {
    FieldRefused(s, p);
    if ReadField(s, p).Stop? {
      StopsAt(s, 0, State(Key, 0, "", []), written, p);
    }
    if e: nat, w: nat :| OpenField(s, p, e, w) {
      OpenQuoteRefused(s, p, e, w);
    }
    if e: nat, w: nat, c: nat :| ClashAt(s, p, e, w, c) {
      ClashRefused(s, p, e, w, c);
    }
  }

  /** An access-log line is not taken for fields. */
  lemma AccessLogExample()
    ensures Parse("GET a=b") == Bad(SpaceInKey)
  {
    assert WordAt("GET a=b", 0, 3);
    RefusedLines("GET a=b", [], 0);
  }

  /** A key that is there keeps its place and gets the new value. */
  lemma {:induction false} SetReplaces(pairs: seq<Pair>, i: nat, key: string, value: string)
    requires i < |pairs| && pairs[i].0 == key && forall j :: 0 <= j < i ==> pairs[j].0 != key
    ensures Set(pairs, key, value) == pairs[i := (key, value)]
  {
    if i > 0 {
      assert pairs[1..][i - 1].0 == key && forall j :: 0 <= j < i - 1 ==> pairs[1..][j].0 != key;
      SetReplaces(pairs[1..], i - 1, key, value);
    }
  }

  lemma TwoFields(s: string, a: Pair, m: nat, b: Pair)
    requires OneField(s, 0, a, m) && OneField(s, m, b, |s|)
    ensures Parse(s) == Ok(Set([a], b.0, b.1))
  {
    var both, last: seq<Pair>, none: seq<Pair> := [a, b], [b], [];
    assert both[1..] == last && last[1..] == none;
    assert Fields(s, |s|, none);
    assert Fields(s, m, last);
    assert Fields(s, 0, both);
    assert SetPairs([], both) == SetPairs([a], last) == SetPairs(Set([a], b.0, b.1), none);
    ParsedIff(s, Set([a], b.0, b.1));
  }

  /** A second space becomes part of the next key. */
  lemma DoubleSpaceExample(s: string)
    requires s == "a=1  b=2"
    ensures Parse(s) == Ok([("a", "1"), (" b", "2")])
  {
    assert s[0..1] == "a" && s[2..3] == "1" && s[4..6] == " b" && s[7..8] == "2";
    assert BareField(s, 0, 1, 3, ("a", "1"), 4);
    assert BareField(s, 4, 6, 8, (" b", "2"), 8);
    TwoFields(s, ("a", "1"), 4, (" b", "2"));
  }

  /** A character right behind a closing quote is lost. */
  lemma BehindQuoteExample(s: string)
    requires s == "a=\"1\"xb=2"
    ensures Parse(s) == Ok([("a", "1"), ("b", "2")])
  {
    assert s[0..1] == "a" && s[3..4] == "1" && s[6..7] == "b" && s[8..9] == "2";
    assert EscapeClosed(s[3..4], false);
    assert QuotedField(s, 0, 1, 2, 4, ("a", "1"), 6);
    assert BareField(s, 6, 7, 9, ("b", "2"), 9);
    TwoFields(s, ("a", "1"), 6, ("b", "2"));
  }
}
