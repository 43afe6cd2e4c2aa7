/** The line protocol between the frontend and the backend. */
module MessageProtocol {
  import opened Text

  const BEGIN := "_message:begin"
  const END := "_message:end"
  const ACTION := "action:"
  const OBJECTS := "_objects:"

  datatype Message = Message(action: string, objects: string, params: map<string, string>)

  // ------------------------------------------------------------------ reading

  function IndexOf(s: string, c: char): (i: nat)
    ensures i <= |s| && (i < |s| ==> s[i] == c) && forall k :: 0 <= k < i ==> s[k] != c
  {
    if s == "" || s[0] == c then 0 else 1 + IndexOf(s[1..], c)
  }

  /** A parameter already present keeps its value. */
  function AddParam(params: map<string, string>, line: string): map<string, string> {
    var i := IndexOf(line, ':');
    if i == |line| || line[..i] in params then params else params[line[..i] := line[i + 1..]]
  }

  /** boost::trim in the C locale. */
  function Strip(line: string): string { Trim(line, IsSpace) }

  /** The messages dispatched from `lines` on, with `open` telling whether a
      message is in progress and `m` what was read of it. Outside a message
      anything but a begin marker ends the loop. */
  function Dispatched(lines: seq<string>, open: bool, m: Message): seq<Message>
    decreases |lines|
  {
    if lines == [] then []
    else
      var line, rest := Strip(lines[0]), lines[1..];
      if Contains(line, BEGIN) then Dispatched(rest, true, m)
      else if !open then []
      else if Contains(line, END) then
        (if m.action != "" && m.objects != "" then [m] else []) + Dispatched(rest, false, EMPTY)
      else if ACTION <= line then Dispatched(rest, true, m.(action := Strip(line[|ACTION|..])))
      else if OBJECTS <= line then Dispatched(rest, true, m.(objects := Strip(line[|OBJECTS|..])))
      else Dispatched(rest, true, m.(params := AddParam(m.params, line)))
  }

  const EMPTY := Message("", "", map[])

  method Loop(lines: seq<string>) returns (dispatched: seq<Message>)
    ensures dispatched == Dispatched(lines, false, EMPTY)
  {
    dispatched := [];
    var inProgress := false;
    var action, objects := "", "";
    var params: map<string, string> := map[];
    var i := 0;
    while i < |lines|
      invariant 0 <= i <= |lines|
      invariant dispatched + Dispatched(lines[i..], inProgress, Message(action, objects, params))
                == Dispatched(lines, false, EMPTY)
    {
      var line := Strip(lines[i]);
      assert lines[i..][1..] == lines[i + 1..];
      i := i + 1;
      if Contains(line, BEGIN) {
        inProgress := true;
        continue;
      }
      if !Contains(line, BEGIN) && !inProgress {
        return;
      }
      if Contains(line, END) {
        inProgress := false;
        if action != "" && objects != "" {
          dispatched := dispatched + [Message(action, objects, params)];
        }
        params := map[];
        action := "";
        objects := "";
        continue;
      }
      if ACTION <= line {
        action := Strip(line[|ACTION|..]);
        continue;
      }
      if OBJECTS <= line {
        objects := Strip(line[|OBJECTS|..]);
        continue;
      }
      var pos := IndexOf(line, ':');
      if pos < |line| && line[..pos] !in params {
        params := params[line[..pos] := line[pos + 1..]];
      }
    }
  }

  // ------------------------------------------------------------------ printing

  datatype Request = Request(action: string, objects: string, params: seq<(string, string)>)

  function ParamLine(p: (string, string)): string { p.0 + ":" + p.1 }

  function ParamLines(params: seq<(string, string)>): seq<string> {
    seq(|params|, i requires 0 <= i < |params| => ParamLine(params[i]))
  }

  function Print(r: Request): seq<string> {
    [BEGIN, ACTION + r.action, OBJECTS + r.objects] + ParamLines(r.params) + [END]
  }

  function PrintAll(rs: seq<Request>): seq<string> {
    if rs == [] then [] else Print(rs[0]) + PrintAll(rs[1..])
  }

  function ParamMap(params: seq<(string, string)>): map<string, string> {
    if params == [] then map[]
    else ParamMap(params[..|params| - 1])[params[|params| - 1].0 := params[|params| - 1].1]
  }

  function AsMessage(r: Request): Message { Message(r.action, r.objects, ParamMap(r.params)) }

  // ------------------------------------------------------------- the round trip

  /** A line that is neither a marker nor cut by trimming. */
  predicate Inert(line: string) {
    Trimmed(line, IsSpace) && !Contains(line, BEGIN) && !Contains(line, END)
  }

  predicate PlainParam(p: (string, string)) {
    var line := ParamLine(p);
    ':' !in p.0 && Inert(line) && !(ACTION <= line) && !(OBJECTS <= line)
  }

  /** Non-empty trimmed action and objects, colon-free distinct keys, and no line
      that reads as something else. Values may hold colons. */
  predicate Printable(r: Request) {
    && r.action != "" && Trimmed(r.action, IsSpace) && Inert(ACTION + r.action)
    && r.objects != "" && Trimmed(r.objects, IsSpace) && Inert(OBJECTS + r.objects)
    && (forall i :: 0 <= i < |r.params| ==> PlainParam(r.params[i]))
    && (forall i, j :: 0 <= i < j < |r.params| ==> r.params[i].0 != r.params[j].0)
  }

  lemma {:induction false} LongNotContained(s: string, p: string)
    requires |s| < |p|
    ensures !Contains(s, p)
  {
    if s != "" { LongNotContained(s[1..], p); }
  }

  lemma ReadBegin(rest: seq<string>, m: Message, open: bool)
    ensures Dispatched([BEGIN] + rest, open, m) == Dispatched(rest, true, m)
  {
    TrimIsTrimmed(BEGIN, IsSpace);
    assert ([BEGIN] + rest)[1..] == rest;
  }

  lemma ReadEnd(rest: seq<string>, m: Message)
    requires m.action != "" && m.objects != ""
    ensures Dispatched([END] + rest, true, m) == [m] + Dispatched(rest, false, EMPTY)
  {
    TrimIsTrimmed(END, IsSpace);
    LongNotContained(END, BEGIN);
    assert ([END] + rest)[1..] == rest;
  }

  lemma ReadAction(action: string, rest: seq<string>, m: Message)
    requires Trimmed(action, IsSpace) && Inert(ACTION + action)
    ensures Dispatched([ACTION + action] + rest, true, m) == Dispatched(rest, true, m.(action := action))
  {
    var line := ACTION + action;
    TrimIsTrimmed(line, IsSpace);
    TrimIsTrimmed(action, IsSpace);
    assert line[|ACTION|..] == action;
    assert ([line] + rest)[1..] == rest;
  }

  lemma ReadObjects(objects: string, rest: seq<string>, m: Message)
    requires Trimmed(objects, IsSpace) && Inert(OBJECTS + objects)
    ensures Dispatched([OBJECTS + objects] + rest, true, m) == Dispatched(rest, true, m.(objects := objects))
  {
    var line := OBJECTS + objects;
    TrimIsTrimmed(line, IsSpace);
    TrimIsTrimmed(objects, IsSpace);
    assert line[|OBJECTS|..] == objects;
    assert line[0] != ACTION[0];
    assert ([line] + rest)[1..] == rest;
  }

  lemma {:induction false} IndexOfFirst(key: string, tail: string)
    requires ':' !in key
    ensures IndexOf(key + ":" + tail, ':') == |key|
  {
    var i := IndexOf(key + ":" + tail, ':');
    var s := key + ":" + tail;
    assert s[|key|] == ':';
    assert forall k :: 0 <= k < |key| ==> s[k] == key[k] && key[k] in key;
  }

  lemma ReadParam(p: (string, string), rest: seq<string>, m: Message)
    requires PlainParam(p) && p.0 !in m.params
    ensures Dispatched([ParamLine(p)] + rest, true, m) == Dispatched(rest, true, m.(params := m.params[p.0 := p.1]))
  {
    var line := ParamLine(p);
    TrimIsTrimmed(line, IsSpace);
    IndexOfFirst(p.0, p.1);
    assert line == p.0 + ":" + p.1;
    assert line[..|p.0|] == p.0 && line[|p.0| + 1..] == p.1;
    assert ([line] + rest)[1..] == rest;
  }

  lemma {:induction false} ParamMapKeys(params: seq<(string, string)>, key: string)
    ensures key in ParamMap(params) <==> exists i :: 0 <= i < |params| && params[i].0 == key
  {
    if params != [] {
      ParamMapKeys(params[..|params| - 1], key);
      assert params[|params| - 1].0 == key ==> exists i :: 0 <= i < |params| && params[i].0 == key;
    }
  }

  /** Reading the parameter lines after the first `n` have been read. */
  lemma {:induction false} ReadParams(r: Request, n: nat, rest: seq<string>, m: Message)
    requires Printable(r) && n <= |r.params| && m == Message(r.action, r.objects, ParamMap(r.params[..n]))
    ensures Dispatched(ParamLines(r.params[n..]) + rest, true, m) == Dispatched(rest, true, AsMessage(r))
    decreases |r.params| - n
  {
    if n == |r.params| {
      assert r.params[..n] == r.params;
      assert ParamLines(r.params[n..]) + rest == rest;
    } else {
      var p := r.params[n];
      ParamMapKeys(r.params[..n], p.0);
      assert ParamLines(r.params[n..]) + rest == [ParamLine(p)] + (ParamLines(r.params[n + 1..]) + rest);
      ReadParam(p, ParamLines(r.params[n + 1..]) + rest, m);
      assert r.params[..n + 1][..n] == r.params[..n];
      ReadParams(r, n + 1, rest, m.(params := m.params[p.0 := p.1]));
    }
  }

  lemma PrintedLines(r: Request, rest: seq<string>)
    ensures Print(r) + rest
            == [BEGIN] + ([ACTION + r.action] + ([OBJECTS + r.objects] + (ParamLines(r.params) + ([END] + rest))))
  {
  }

  /** One printed message is dispatched as it was, and leaves nothing behind. */
  lemma ReadPrinted(r: Request, rest: seq<string>)
    requires Printable(r)
    ensures Dispatched(Print(r) + rest, false, EMPTY) == [AsMessage(r)] + Dispatched(rest, false, EMPTY)
  {
    var params := ParamLines(r.params) + ([END] + rest);
    var objects := [OBJECTS + r.objects] + params;
    var action := [ACTION + r.action] + objects;
    PrintedLines(r, rest);
    ReadBegin(action, EMPTY, false);
    ReadAction(r.action, objects, EMPTY);
    ReadObjects(r.objects, params, EMPTY.(action := r.action));
    assert r.params[0..] == r.params && ParamMap(r.params[..0]) == map[];
    ReadParams(r, 0, [END] + rest, Message(r.action, r.objects, map[]));
    ReadEnd(rest, AsMessage(r));
  }

  /** A sequence of printed messages is dispatched exactly, in order. */
  lemma {:induction false} MessagesRoundTrip(rs: seq<Request>)
    requires forall i :: 0 <= i < |rs| ==> Printable(rs[i])
    ensures Dispatched(PrintAll(rs), false, EMPTY) == seq(|rs|, i requires 0 <= i < |rs| => AsMessage(rs[i]))
  {
    if rs != [] {
      MessagesRoundTrip(rs[1..]);
      ReadPrinted(rs[0], PrintAll(rs[1..]));
    }
  }

  /** ParamMap holds every pair. */
  lemma {:induction false} ParamMapHolds(params: seq<(string, string)>, k: nat)
    requires k < |params| && forall i, j :: 0 <= i < j < |params| ==> params[i].0 != params[j].0
    ensures params[k].0 in ParamMap(params) && ParamMap(params)[params[k].0] == params[k].1
  {
    if k < |params| - 1 { ParamMapHolds(params[..|params| - 1], k); }
  }

  // ------------------------------------------------------------- other lines

  /** Outside a message the first line without a begin marker ends the reading. */
  lemma GarbageEndsReading(line: string, rest: seq<string>, m: Message)
    requires !Contains(Strip(line), "_message:begin")
    ensures Dispatched([line] + rest, false, m) == []
  {
  }

  /** A begin marker anywhere in a line opens a message, also inside one, and then
      forgets nothing that was read. */
  lemma BeginOpens(line: string, rest: seq<string>, open: bool, m: Message)
    requires Contains(Strip(line), "_message:begin")
    ensures Dispatched([line] + rest, open, m) == Dispatched(rest, true, m)
  {
  }

  /** An end marker dispatches the message if it has an action and objects, drops it
      otherwise, and starts afresh either way. */
  lemma EndCloses(line: string, rest: seq<string>, m: Message)
    requires Contains(Strip(line), "_message:end") && !Contains(Strip(line), "_message:begin")
    ensures Dispatched([line] + rest, true, m)
            == (if m.action == "" || m.objects == "" then [] else [m]) + Dispatched(rest, false, Message("", "", map[]))
  {
  }

  predicate NoMarker(line: string) { !Contains(line, "_message:begin") && !Contains(line, "_message:end") }

  /** The last action and the last objects count, without white space around them. */
  lemma FieldsReplace(line: string, rest: seq<string>, m: Message)
    requires NoMarker(Strip(line))
    ensures "action:" <= Strip(line) ==>
      Dispatched([line] + rest, true, m) == Dispatched(rest, true, m.(action := Strip(Strip(line)[7..])))
    ensures "_objects:" <= Strip(line) ==>
      Dispatched([line] + rest, true, m) == Dispatched(rest, true, m.(objects := Strip(Strip(line)[9..])))
  {
    var t := Strip(line);
    assert "action:" <= t ==> t[0] == 'a';
    assert "_objects:" <= t ==> t[0] == '_';
  }

  /** Any other line gives a parameter if it holds a colon: the text before the first
      one names it, unless the name is taken. */
  lemma OtherLineMeans(line: string, rest: seq<string>, m: Message, key: string, value: string)
    requires var t := Strip(line); NoMarker(t) && !("action:" <= t) && !("_objects:" <= t)
    ensures ':' !in Strip(line) ==> Dispatched([line] + rest, true, m) == Dispatched(rest, true, m)
    ensures Strip(line) == key + ":" + value && ':' !in key && key in m.params ==>
      Dispatched([line] + rest, true, m) == Dispatched(rest, true, m)
    ensures Strip(line) == key + ":" + value && ':' !in key && key !in m.params ==>
      Dispatched([line] + rest, true, m) == Dispatched(rest, true, m.(params := m.params[key := value]))
  {
    var t := Strip(line);
    var i := IndexOf(t, ':');
    assert i < |t| ==> t[i] == ':' && t[i] in t;
    if t == key + ":" + value && ':' !in key {
      IndexOfFirst(key, value);
      assert t[..i] == key && t[i + 1..] == value;
    }
    assert ([line] + rest)[0] == line && ([line] + rest)[1..] == rest;
  }

  /** Nothing is dispatched before its end marker. */
  lemma {:induction false} NoEndNoMessage(lines: seq<string>, open: bool, m: Message)
    requires forall i :: 0 <= i < |lines| ==> !Contains(Strip(lines[i]), "_message:end")
    ensures Dispatched(lines, open, m) == []
    decreases |lines|
  {
    if lines != [] {
      var t, rest := Strip(lines[0]), lines[1..];
      if Contains(t, BEGIN) {
        NoEndNoMessage(rest, true, m);
      } else if open {
        if ACTION <= t {
          NoEndNoMessage(rest, true, m.(action := Strip(t[|ACTION|..])));
        } else if OBJECTS <= t {
          NoEndNoMessage(rest, true, m.(objects := Strip(t[|OBJECTS|..])));
        } else {
          NoEndNoMessage(rest, true, m.(params := AddParam(m.params, t)));
        }
      }
    }
  }

  /** White space around a line does not matter. */
  lemma PaddingIsIgnored(before: string, line: string, after: string, rest: seq<string>, open: bool, m: Message)
    requires AllOf(before, IsSpace) && AllOf(after, IsSpace) && Trimmed(line, IsSpace) && line != ""
    ensures Dispatched([before + line + after] + rest, open, m) == Dispatched([line] + rest, open, m)
  {
    TrimFinds(before, line, after, IsSpace);
    TrimFinds("", line, "", IsSpace);
    assert "" + line + "" == line;
    assert ([before + line + after] + rest)[1..] == rest && ([line] + rest)[1..] == rest;
  }
}
