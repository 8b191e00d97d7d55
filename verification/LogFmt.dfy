/** The logfmt parser (internal/container/logfmt.go). */
module LogFmt {
  type Pair = (string, string)

  datatype Problem = EmptyKey | SpaceInKey | UnclosedQuotes | KeyWithoutValue

  datatype Parsed = Ok(pairs: seq<Pair>) | Bad(problem: Problem)

  /** Setting a key of an ordered map: in place if the key is there, at the end otherwise. */
  function Set(pairs: seq<Pair>, key: string, value: string): seq<Pair> {
    if pairs == [] then [(key, value)]
    else if pairs[0].0 == key then [(key, value)] + pairs[1..]
    else [pairs[0]] + Set(pairs[1..], key, value)
  }

  lemma {:induction false} SetTwice(pairs: seq<Pair>, key: string, value: string)
    ensures Set(Set(pairs, key, value), key, value) == Set(pairs, key, value)
  {
    if pairs != [] && pairs[0].0 != key {
      SetTwice(pairs[1..], key, value);
    }
  }

  // ---- The parser as a state machine ----

  datatype Mode = Key | Value | Quoted | Escaped

  /** Where the parser stands: its flags, the start of the current token, the last key, the result. */
  datatype State = State(mode: Mode, start: nat, key: string, pairs: seq<Pair>)

  datatype Next = Go(state: State) | Fail(problem: Problem)

  /** Token starts stay close enough to the position for every slice to be in bounds. */
  predicate InBounds(st: State, i: nat) { if st.mode == Key then st.start <= i + 1 else st.start <= i }

  function Step(s: string, i: nat, st: State): (r: Next)
    requires i < |s| && InBounds(st, i)
    ensures r.Go? ==> InBounds(r.state, i + 1)
  {
    var c := s[i];
    match st.mode
    case Key =>
      if c == '=' then
        if st.start >= i then Fail(EmptyKey) else Go(State(Value, i + 1, s[st.start..i], st.pairs))
      else if c == ' ' && i > st.start then Fail(SpaceInKey)
      else Go(st)
    case Escaped => Go(st.(mode := Quoted))
    case Quoted =>
      if c == '\\' then Go(st.(mode := Escaped))
      else if c == '"' then Go(State(Key, i + 2, st.key, Set(st.pairs, st.key, s[st.start..i])))
      else Go(st)
    case Value =>
      if c == '"' then Go(st.(mode := Quoted, start := i + 1))
      else if c == ' ' then Go(State(Key, i + 1, st.key, Set(st.pairs, st.key, s[st.start..i])))
      else Go(st)
  }

  function Finish(s: string, st: State): Parsed
    requires InBounds(st, |s|)
  {
    match st.mode
    case Key => if st.start < |s| then Bad(KeyWithoutValue) else Ok(st.pairs)
    case Value => Ok(Set(st.pairs, st.key, s[st.start..]))
    case _ => Bad(UnclosedQuotes)
  }

  function ParseFrom(s: string, i: nat, st: State): Parsed
    requires i <= |s| && InBounds(st, i)
    decreases |s| - i
  {
    if i == |s| then Finish(s, st)
    else match Step(s, i, st)
      case Fail(p) => Bad(p)
      case Go(st') => ParseFrom(s, i + 1, st')
  }

  function Parse(s: string): Parsed { ParseFrom(s, 0, State(Key, 0, "", [])) }

  /** The one-pass loop over flags; on every input all slices are in bounds. */
  method ParseLogFmt(log: string) returns (r: Parsed)
    ensures r == Parse(log)
  {
    var pairs: seq<Pair> := [];
    var key, value := "", "";
    var inQuotes, escaping, isKey := false, false, true;
    var start := 0;
    var i := 0;
    while i < |log|
      invariant 0 <= i <= |log| && 0 <= start &&
                InBounds(State(ModeOf(isKey, inQuotes, escaping), start, key, pairs), i)
      invariant (isKey ==> !inQuotes) && (!inQuotes ==> !escaping)
      invariant Parse(log) == ParseFrom(log, i, State(ModeOf(isKey, inQuotes, escaping), start, key, pairs))
    {
      var c := log[i];
      if isKey {
        if c == '=' {
          if start >= i {
            return Bad(EmptyKey);
          }
          key := log[start..i];
          isKey := false;
          start := i + 1;
        } else if c == ' ' {
          if i > start {
            return Bad(SpaceInKey);
          }
        }
      } else if inQuotes {
        if escaping {
          escaping := false;
        } else if c == '\\' {
          escaping := true;
        } else if c == '"' {
          value := log[start..i];
          pairs := Set(pairs, key, value);
          inQuotes := false;
          isKey := true;
          start := i + 2;
        }
      } else if c == '"' {
        inQuotes := true;
        start := i + 1;
      } else if c == ' ' {
        value := log[start..i];
        pairs := Set(pairs, key, value);
        isKey := true;
        start := i + 1;
      }
      i := i + 1;
    }
    ghost var end := State(ModeOf(isKey, inQuotes, escaping), start, key, pairs);
    if !isKey && start < |log| {
      if inQuotes {
        return Bad(UnclosedQuotes);
      }
      value := log[start..];
      pairs := Set(pairs, key, value);
    } else if isKey && start < |log| {
      return Bad(KeyWithoutValue);
    }
    if !isKey {
      if inQuotes {
        return Bad(UnclosedQuotes);
      }
      value := log[start..];
      SetTwice(end.pairs, key, value);
      pairs := Set(pairs, key, value);
    }
    return Ok(pairs);
  }

  function ModeOf(isKey: bool, inQuotes: bool, escaping: bool): Mode {
    if isKey then Key else if !inQuotes then Value else if escaping then Escaped else Quoted
  }

  // ---- Printing ----

  /** A field is printed with its value bare or between quotes. */
  datatype Field = Field(key: string, value: string, quoted: bool) {
    function Text(): (t: string)
      ensures |t| == Size()
    {
      if quoted then key + "=\"" + value + "\"" else key + "=" + value
    }

    function Size(): nat { |key| + 1 + |value| + if quoted then 2 else 0 }

    predicate Printable() {
      && key != "" && ' ' !in key && '=' !in key
      && if quoted then EscapeClosed(value, false) else ' ' !in value && '"' !in value
    }
  }

  /** Every quote is escaped and no escape is left open. */
  predicate EscapeClosed(v: string, escaping: bool) {
    if v == "" then !escaping
    else if escaping then EscapeClosed(v[1..], false)
    else v[0] != '"' && EscapeClosed(v[1..], v[0] == '\\')
  }

  /** The fields separated by single spaces. */
  function Print(fields: seq<Field>): string {
    if fields == [] then ""
    else if |fields| == 1 then fields[0].Text()
    else fields[0].Text() + " " + Print(fields[1..])
  }

  function SetAll(pairs: seq<Pair>, fields: seq<Field>): seq<Pair>
    decreases |fields|
  {
    if fields == [] then pairs else SetAll(Set(pairs, fields[0].key, fields[0].value), fields[1..])
  }

  // ---- The round trip ----

  /** The text stands at position p of s. */
  predicate At(s: string, p: nat, text: string) {
    p + |text| <= |s| && forall k :: 0 <= k < |text| ==> s[p + k] == text[k]
  }

  lemma AtSlice(s: string, p: nat, text: string)
    requires At(s, p, text)
    ensures s[p..p + |text|] == text
  {
  }

  /** A field stands at p. */
  ghost predicate FieldAt(s: string, p: nat, f: Field) {
    var q, e := p + |f.key|, p + f.Size();
    && e <= |s| && At(s, p, f.key) && s[q] == '='
    && if f.quoted then s[q + 1] == '"' && At(s, q + 2, f.value) && s[e - 1] == '"' else At(s, q + 1, f.value)
  }

  /** From p to its end, s is exactly these fields, separated by single spaces. */
  ghost predicate PrintedAt(s: string, p: nat, fields: seq<Field>)
    decreases |fields|
  {
    if fields == [] then p == |s|
    else
      var e := p + fields[0].Size();
      FieldAt(s, p, fields[0]) &&
      if |fields| == 1 then e == |s| else e < |s| && s[e] == ' ' && PrintedAt(s, e + 1, fields[1..])
  }

  lemma TextIsField(f: Field, tail: string)
    ensures FieldAt(f.Text() + tail, 0, f)
  {
  }

  lemma FieldShifts(head: string, s: string, p: nat, f: Field)
    requires FieldAt(s, p, f)
    ensures FieldAt(head + s, |head| + p, f)
  {
  }

  lemma {:induction false} PrintShifts(head: string, s: string, p: nat, fields: seq<Field>)
    requires PrintedAt(s, p, fields)
    ensures PrintedAt(head + s, |head| + p, fields)
    decreases |fields|
  {
    if fields != [] {
      FieldShifts(head, s, p, fields[0]);
      if |fields| > 1 {
        PrintShifts(head, s, p + fields[0].Size() + 1, fields[1..]);
      }
    }
  }

  lemma PrintedMore(f: Field, rest: string, more: seq<Field>)
    requires more != [] && PrintedAt(rest, 0, more)
    ensures PrintedAt(f.Text() + " " + rest, 0, [f] + more)
  {
    var fields := [f] + more;
    FieldInFront(f, rest);
    PrintShifts(f.Text() + " ", rest, 0, more);
    assert fields[1..] == more;
  }

  lemma FieldInFront(f: Field, rest: string)
    ensures var s := f.Text() + " " + rest; FieldAt(s, 0, f) && s[f.Size()] == ' '
  {
    TextIsField(f, " " + rest);
    assert f.Text() + (" " + rest) == f.Text() + " " + rest;
  }

  lemma {:induction false} PrintIsPrinted(fields: seq<Field>)
    ensures PrintedAt(Print(fields), 0, fields)
  {
    if |fields| == 1 {
      TextIsField(fields[0], "");
      assert fields[0].Text() + "" == fields[0].Text();
    } else if |fields| > 1 {
      PrintIsPrinted(fields[1..]);
      PrintedMore(fields[0], Print(fields[1..]), fields[1..]);
      assert fields == [fields[0]] + fields[1..];
    }
  }

  lemma {:induction false} ReadKey(s: string, i: nat, text: string, k: nat, st: State)
    requires At(s, i, text) && k <= |text| && ' ' !in text && '=' !in text
    requires st.mode == Key && st.start <= i
    ensures ParseFrom(s, i + k, st) == ParseFrom(s, i + |text|, st)
    decreases |text| - k
  {
    if k < |text| {
      assert s[i + k] == text[k];
      ReadKey(s, i, text, k + 1, st);
    }
  }

  lemma {:induction false} ReadBareValue(s: string, i: nat, text: string, k: nat, st: State)
    requires At(s, i, text) && k <= |text| && ' ' !in text && '"' !in text
    requires st.mode == Value && st.start <= i
    ensures ParseFrom(s, i + k, st) == ParseFrom(s, i + |text|, st)
    decreases |text| - k
  {
    if k < |text| {
      assert s[i + k] == text[k];
      ReadBareValue(s, i, text, k + 1, st);
    }
  }

  lemma {:induction false} ReadQuotedValue(s: string, i: nat, text: string, k: nat, st: State)
    requires At(s, i, text) && k <= |text| && EscapeClosed(text[k..], st.mode == Escaped)
    requires (st.mode == Quoted || st.mode == Escaped) && st.start <= i
    ensures ParseFrom(s, i + k, st) == ParseFrom(s, i + |text|, st.(mode := Quoted))
    decreases |text| - k
  {
    if k < |text| {
      assert s[i + k] == text[k] == text[k..][0];
      assert text[k..][1..] == text[k + 1..];
      ReadQuotedValue(s, i, text, k + 1, Step(s, i + k, st).state);
    }
  }

  lemma ReadFieldKey(s: string, p: nat, f: Field, st: State)
    requires f.Printable() && FieldAt(s, p, f) && st.mode == Key && st.start == p
    ensures ParseFrom(s, p, st) == ParseFrom(s, p + |f.key| + 1, State(Value, p + |f.key| + 1, f.key, st.pairs))
  {
    ReadKey(s, p, f.key, 0, st);
    AtSlice(s, p, f.key);
  }

  /** A printed field at p: the parser reads it and stands behind it with the pair stored. */
  lemma ReadQuotedField(s: string, p: nat, f: Field, st: State)
    requires f.Printable() && f.quoted && FieldAt(s, p, f) && st.mode == Key && st.start == p
    ensures var e := p + f.Size();
            ParseFrom(s, p, st) == ParseFrom(s, e, State(Key, e + 1, f.key, Set(st.pairs, f.key, f.value)))
  {
    var v := p + |f.key| + 2;
    ReadFieldKey(s, p, f, st);
    var st2 := State(Quoted, v, f.key, st.pairs);
    assert Step(s, v - 1, State(Value, v - 1, f.key, st.pairs)) == Go(st2);
    assert f.value[0..] == f.value;
    ReadQuotedValue(s, v, f.value, 0, st2);
    CloseQuote(s, v, f.value, st2);
  }

  lemma CloseQuote(s: string, v: nat, value: string, st: State)
    requires At(s, v, value) && v + |value| < |s| && s[v + |value|] == '"' && st.mode == Quoted && st.start == v
    ensures var e := v + |value| + 1;
            ParseFrom(s, e - 1, st) == ParseFrom(s, e, State(Key, e + 1, st.key, Set(st.pairs, st.key, value)))
  {
    AtSlice(s, v, value);
  }

  lemma ReadBareField(s: string, p: nat, f: Field, st: State)
    requires f.Printable() && !f.quoted && FieldAt(s, p, f) && st.mode == Key && st.start == p
    ensures var e, got := p + f.Size(), Set(st.pairs, f.key, f.value);
            if e == |s| then ParseFrom(s, p, st) == Ok(got)
            else s[e] == ' ' ==> ParseFrom(s, p, st) == ParseFrom(s, e + 1, State(Key, e + 1, f.key, got))
  {
    var e, v := p + f.Size(), p + |f.key| + 1;
    ReadFieldKey(s, p, f, st);
    ReadBareValue(s, v, f.value, 0, State(Value, v, f.key, st.pairs));
    EndBareValue(s, v, f.value, State(Value, v, f.key, st.pairs));
  }

  lemma EndBareValue(s: string, v: nat, value: string, st: State)
    requires At(s, v, value) && st.mode == Value && st.start == v
    ensures var e, got := v + |value|, Set(st.pairs, st.key, value);
            if e == |s| then ParseFrom(s, e, st) == Ok(got)
            else s[e] == ' ' ==> ParseFrom(s, e, st) == ParseFrom(s, e + 1, State(Key, e + 1, st.key, got))
  {
    AtSlice(s, v, value);
    assert v + |value| == |s| ==> s[v..] == s[v..v + |value|];
  }

  lemma {:induction false} ReadFields(s: string, p: nat, fields: seq<Field>, st: State)
    requires PrintedAt(s, p, fields) && (forall f :: f in fields ==> f.Printable())
    requires p <= |s| && st.mode == Key && st.start == p
    ensures ParseFrom(s, p, st) == Ok(SetAll(st.pairs, fields))
    decreases |fields|
  {
    if fields != [] {
      var f, e := fields[0], p + fields[0].Size();
      if f.quoted {
        ReadQuotedField(s, p, f, st);
      } else {
        ReadBareField(s, p, f, st);
      }
      if |fields| > 1 {
        ReadFields(s, e + 1, fields[1..], State(Key, e + 1, f.key, Set(st.pairs, f.key, f.value)));
      }
    }
  }

  /** Parsing what was printed gives the pairs back, later values of a key replacing earlier ones. */
  lemma PrintParse(fields: seq<Field>)
    requires forall f :: f in fields ==> f.Printable()
    ensures Parse(Print(fields)) == Ok(SetAll([], fields))
  {
    PrintIsPrinted(fields);
    ReadFields(Print(fields), 0, fields, State(Key, 0, "", []));
  }

  function PairsOf(fields: seq<Field>): seq<Pair> {
    if fields == [] then [] else [(fields[0].key, fields[0].value)] + PairsOf(fields[1..])
  }

  ghost predicate DistinctKeys(fields: seq<Field>) {
    forall i, j :: 0 <= i < j < |fields| ==> fields[i].key != fields[j].key
  }

  ghost predicate Fresh(pairs: seq<Pair>, key: string) {
    forall i :: 0 <= i < |pairs| ==> pairs[i].0 != key
  }

  lemma {:induction false} SetNewKey(pairs: seq<Pair>, key: string, value: string)
    requires Fresh(pairs, key)
    ensures Set(pairs, key, value) == pairs + [(key, value)]
  {
    if pairs != [] {
      SetNewKey(pairs[1..], key, value);
    }
  }

  lemma {:induction false} SetAllNewKeys(pairs: seq<Pair>, fields: seq<Field>)
    requires DistinctKeys(fields)
    requires forall i :: 0 <= i < |fields| ==> Fresh(pairs, fields[i].key)
    ensures SetAll(pairs, fields) == pairs + PairsOf(fields)
    decreases |fields|
  {
    if fields != [] {
      var f, rest := fields[0], fields[1..];
      SetNewKey(pairs, f.key, f.value);
      var more := pairs + [(f.key, f.value)];
      forall i | 0 <= i < |rest|
        ensures Fresh(more, rest[i].key)
      {
        assert rest[i] == fields[i + 1] && Fresh(pairs, fields[i + 1].key);
      }
      assert DistinctKeys(rest);
      SetAllNewKeys(more, rest);
      var tail := PairsOf(rest);
      assert more + tail == pairs + ([(f.key, f.value)] + tail);
    }
  }

  /** With distinct keys the round trip is exact: the same pairs in the same order. */
  lemma RoundTrip(fields: seq<Field>)
    requires DistinctKeys(fields) && forall f :: f in fields ==> f.Printable()
    ensures Parse(Print(fields)) == Ok(PairsOf(fields))
  {
    PrintParse(fields);
    SetAllNewKeys([], fields);
  }
}
