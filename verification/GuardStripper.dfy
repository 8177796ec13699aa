/**
 The pre-processor that strips guarded blocks of lines. Markers are literal text, optionally
 followed by the guard name (`%s` at the end); they contain no regular-expression operators.
 */
module GuardStripper {
  import opened Prelude
  import opened Numerals

  datatype Marker = Marker(text: string, named: bool)

  const DEFAULT_PRE := Marker("#if ", true)
  const DEFAULT_POST := Marker("#endif", false)

  /** The pair of marker texts for one listed name. */
  datatype Guard = Guard(pre: string, post: string)

  datatype Error = StackUnderflow | InterleavedGuard

  /** `[A-Za-z0-9][A-Za-z0-9_]+` */
  predicate IsName(name: string) {
    |name| >= 2 && IsAlnum(name[0]) && forall c :: c in name ==> IsWordChar(c)
  }

  function Fill(marker: Marker, name: string): string {
    if marker.named then marker.text + name else marker.text
  }

  /** The stripped line starts with the marker, followed by a name when the marker has one. */
  predicate IsGuard(marker: Marker, line: string) {
    var t := Strip(line);
    var n := |marker.text|;
    marker.text <= t && (marker.named ==> |t| >= n + 2 && IsAlnum(t[n]) && IsWordChar(t[n + 1]))
  }

  predicate Contains(text: string, part: string) {
    part <= text || (text != [] && Contains(text[1..], part))
  }

  function CreateGuards(pre: Marker, post: Marker, names: seq<string>): (guards: seq<Guard>)
    ensures |guards| == |names|
    ensures forall i :: 0 <= i < |names| ==> guards[i] == Guard(Fill(pre, names[i]), Fill(post, names[i]))
  {
    if names == [] then []
    else [Guard(Fill(pre, names[0]), Fill(post, names[0]))] + CreateGuards(pre, post, names[1..])
  }

  predicate Mentions(line: string, guard: Guard) {
    Contains(Strip(line), guard.pre) || Contains(Strip(line), guard.post)
  }

  /** The first guard that is mentioned in the line. */
  function FindGuard(line: string, guards: seq<Guard>): (r: Option<Guard>)
    ensures r.Some? ==>
              exists i :: && 0 <= i < |guards| && guards[i] == r.value && Mentions(line, guards[i])
                          && forall j :: 0 <= j < i ==> !Mentions(line, guards[j])
    ensures r.None? ==> forall g :: g in guards ==> !Mentions(line, g)
  {
    if guards == [] then None
    else if Mentions(line, guards[0]) then Some(guards[0])
    else
      var rest := FindGuard(line, guards[1..]);
      assert forall i :: 0 <= i < |guards[1..]| ==> guards[1..][i] == guards[i + 1];
      rest
  }

  // ---------------------------------------------------------------- the machine

  type Stack = seq<Option<Guard>>

  datatype State = State(stack: Stack, out: seq<string>)

  /** Every enclosing block is a listed one. */
  predicate AllListed(stack: Stack) {
    forall g :: g in stack ==> g.Some?
  }

  function Step(pre: Marker, post: Marker, guards: seq<Guard>, st: State, line: string): Result<State, Error> {
    if IsGuard(pre, line) then
      Ok(st.(stack := st.stack + [FindGuard(line, guards)]))
    else if IsGuard(post, line) then
      if st.stack == [] then Err(StackUnderflow)
      else
        var top := st.stack[|st.stack| - 1];
        if top.Some? && !IsGuard(Marker(top.value.post, false), line) then Err(InterleavedGuard)
        else Ok(st.(stack := st.stack[..|st.stack| - 1]))
    else if AllListed(st.stack) then Ok(st.(out := st.out + [line]))
    else Ok(st)
  }

  function RunFrom(pre: Marker, post: Marker, guards: seq<Guard>, st: State, lines: seq<string>): Result<State, Error>
    decreases |lines|
  {
    if lines == [] then Ok(st)
    else
      match Step(pre, post, guards, st, lines[0])
      case Err(e) => Err(e)
      case Ok(next) => RunFrom(pre, post, guards, next, lines[1..])
  }

  function StripLines(lines: seq<string>, pre: Marker, post: Marker, names: seq<string>): Result<seq<string>, Error> {
    match RunFrom(pre, post, CreateGuards(pre, post, names), State([], []), lines)
    case Err(e) => Err(e)
    case Ok(st) => Ok(st.out)
  }

  method StripGuardedLines(inlines: seq<string>, pre: Marker, post: Marker, names: seq<string>)
    returns (r: Result<seq<string>, Error>)
    ensures r == StripLines(inlines, pre, post, names)
  {
    var guards := CreateGuards(pre, post, names);
    var stack: Stack := [];
    var outlines: seq<string> := [];
    ghost var whole := RunFrom(pre, post, guards, State([], []), inlines);
    for i := 0 to |inlines|
      invariant whole == RunFrom(pre, post, guards, State(stack, outlines), inlines[i..])
    {
      var line := inlines[i];
      assert inlines[i..][1..] == inlines[i + 1..];
      if IsGuard(pre, line) {
        stack := stack + [FindGuard(line, guards)];
      } else if IsGuard(post, line) {
        if stack == [] {
          return Err(StackUnderflow);
        }
        var guard := stack[|stack| - 1];
        stack := stack[..|stack| - 1];
        if guard.Some? && !IsGuard(Marker(guard.value.post, false), line) {
          return Err(InterleavedGuard);
        }
      } else if AllListed(stack) {
        outlines := outlines + [line];
      }
    }
    r := Ok(outlines);
  }

  // ---------------------------------------------------------------- documents as trees

  /** A plain line, or a block between an opening and a closing marker line. */
  datatype Node =
    | Line(text: string)
    | Block(name: string, open: string, close: string, body: seq<Node>)

  predicate IsPlain(pre: Marker, post: Marker, line: string) {
    !IsGuard(pre, line) && !IsGuard(post, line)
  }

  /** The opening marker is at the start of the line, and neither marker is anywhere else in it. */
  predicate OneMarker(pre: Marker, post: Marker, text: string)
    requires |text| > 0
  {
    !Contains(text[1..], pre.text) && !Contains(text, post.text)
  }

  predicate AllWords(names: seq<string>) {
    forall l, c :: l in names && c in l ==> IsWordChar(c)
  }

  /**
   An opening line for the name. More text may follow, without another marker, when the listed
   names are words: the name ends where the word does.
   */
  predicate Opens(pre: Marker, post: Marker, names: seq<string>, name: string, open: string) {
    var marker, text := Fill(pre, name), Strip(open);
    || text == marker
    || (marker < text && !IsWordChar(text[|marker|]) && AllWords(names) && OneMarker(pre, post, text))
  }

  /** A closing line for the name; more text may follow. */
  predicate Closes(post: Marker, name: string, close: string) {
    Fill(post, name) <= Strip(close)
  }

  /** Blocks have a name, an opening line and a closing line, and no other line is a marker line. */
  predicate WellFormed(pre: Marker, post: Marker, names: seq<string>, doc: seq<Node>) {
    doc != [] ==>
      && (match doc[0]
          case Line(text) => IsPlain(pre, post, text)
          case Block(name, open, close, body) =>
            && IsName(name)
            && Opens(pre, post, names, name, open)
            && Closes(post, name, close)
            && WellFormed(pre, post, names, body))
      && WellFormed(pre, post, names, doc[1..])
  }

  function Render(doc: seq<Node>): seq<string> {
    if doc == [] then []
    else
      (match doc[0]
       case Line(text) => [text]
       case Block(_, open, close, body) => [open] + Render(body) + [close])
      + Render(doc[1..])
  }

  /** The plain lines all of whose enclosing blocks satisfy `keep`, in order. */
  function Kept(keep: string -> bool, doc: seq<Node>): seq<string> {
    if doc == [] then []
    else
      (match doc[0]
       case Line(text) => [text]
       case Block(name, _, _, body) => if keep(name) then Kept(keep, body) else [])
      + Kept(keep, doc[1..])
  }

  predicate NamesIn(used: set<string>, doc: seq<Node>) {
    doc != [] ==>
      && (doc[0].Block? ==> doc[0].name in used && NamesIn(used, doc[0].body))
      && NamesIn(used, doc[1..])
  }

  /** Some listed name is a prefix of `name`; this is what the machine tests. */
  predicate PrefixListed(names: seq<string>, name: string) {
    exists l :: l in names && l <= name
  }

  /** The blocks the machine keeps. */
  function KeepPrefixListed(names: seq<string>): string -> bool {
    (name: string) => PrefixListed(names, name)
  }

  /** The blocks the documentation promises to keep. */
  function KeepListed(names: seq<string>): string -> bool {
    (name: string) => name in names
  }

  /** The markers cannot be confused: neither occurs across or inside the other or inside a name. */
  predicate Separated(pre: Marker, post: Marker) {
    && pre.named
    && |pre.text| > 0 && !IsSpace(pre.text[0])
    && |post.text| > 0 && !IsSpace(post.text[0]) && (!post.named ==> !IsSpace(post.text[|post.text| - 1]))
    && (exists c :: c in pre.text && !IsWordChar(c))
    && (exists c :: c in post.text && !IsWordChar(c))
    && (forall k :: 0 < k < |pre.text| ==> !(pre.text[k..] <= pre.text))
    && (forall k :: 0 <= k < |pre.text| ==> !(pre.text[k..] <= post.text) && !(post.text <= pre.text[k..]))
  }

  lemma {:induction false} DefaultsAreSeparated()
    ensures Separated(DEFAULT_PRE, DEFAULT_POST)
  {
    var p, q := DEFAULT_PRE.text, DEFAULT_POST.text;
    assert '#' in p && '#' in q;
    forall k | 0 <= k < |p|
      ensures !(p[k..] <= q) && !(q <= p[k..])
      ensures k > 0 ==> !(p[k..] <= p)
    {
      assert p[k..][0] == p[k];
      assert k == 0 ==> p[k..][1] == 'i';
      assert q[1] == 'e';
    }
  }

  lemma {:induction false} NotContained(text: string, part: string)
    requires forall k :: 0 <= k <= |text| ==> !(part <= text[k..])
    ensures !Contains(text, part)
  {
    assert text[0..] == text;
    if text != [] {
      assert forall k :: 0 <= k < |text| ==> text[1..][k..] == text[k + 1..];
      NotContained(text[1..], part);
    }
  }

  lemma StartsWithPart(part: string, rest: string)
    ensures part <= [] + part + rest
  {
  }

  lemma {:induction false} ContainsIff(text: string, part: string)
    ensures Contains(text, part) <==> exists u, v :: text == u + part + v
  {
    if part <= text {
      assert text == [] + part + text[|part|..];
    } else if text != [] {
      ContainsIff(text[1..], part);
      if u, v :| text[1..] == u + part + v {
        assert text == ([text[0]] + u) + part + v;
      }
      if u, v :| text == u + part + v {
        StartsWithPart(part, v);
        assert u != [];
        assert text[1..] == u[1..] + part + v;
      }
    } else {
      assert forall u, v :: [] == u + part + v ==> part == [];
    }
  }

  /** A guard is found in a line exactly when one of its two markers occurs in the stripped line. */
  lemma {:induction false} FoundIff(line: string, guards: seq<Guard>)
    ensures FindGuard(line, guards).Some? <==>
              exists g, u, v :: g in guards && (Strip(line) == u + g.pre + v || Strip(line) == u + g.post + v)
  {
    forall g | g in guards
      ensures Mentions(line, g) <==> exists u, v :: Strip(line) == u + g.pre + v || Strip(line) == u + g.post + v
    {
      ContainsIff(Strip(line), g.pre);
      ContainsIff(Strip(line), g.post);
    }
    if FindGuard(line, guards).Some? {
      var i := FoundAt(line, guards);
      assert guards[i] in guards;
    }
  }

  lemma {:induction false} Mismatch(s: string, t: string) returns (i: nat)
    requires |s| <= |t| && !(s <= t)
    ensures i < |s| && s[i] != t[i]
  {
    assert t[..|s|] != s;
    i :| 0 <= i < |s| && s[i] != t[i];
  }

  /** The marker `q` does not occur at offset `k` of an opening line. */
  lemma {:induction false} NotAt(p: string, q: string, l: string, u: string, k: nat)
    requires IsName(u) && k <= |p + u|
    requires exists c :: c in q && !IsWordChar(c)
    requires k < |p| ==> !(p[k..] <= q) && !(q <= p[k..])
    ensures !(q + l <= (p + u)[k..])
  {
    var line := (p + u)[k..];
    if |q + l| <= |line| {
      var i: nat;
      if k >= |p| {
        i :| 0 <= i < |q| && !IsWordChar(q[i]);
        assert line[i] == u[k - |p| + i] && line[i] in u;
      } else if |q| <= |p| - k {
        i := Mismatch(q, p[k..]);
      } else {
        i := Mismatch(p[k..], q);
      }
      assert (q + l)[i] != line[i];
    }
  }

  lemma {:induction false} ContainsLess(text: string, part: string, more: string)
    requires Contains(text, part + more)
    ensures Contains(text, part)
  {
    if part + more <= text {
      assert (part + more)[..|part|] == part;
    } else {
      ContainsLess(text[1..], part, more);
    }
  }

  /** An opening line without further text has no other marker. */
  lemma {:induction false} ExactHasOneMarker(pre: Marker, post: Marker, u: string)
    requires Separated(pre, post) && IsName(u)
    ensures OneMarker(pre, post, pre.text + u)
  {
    var p, q, t := pre.text, post.text, pre.text + u;
    forall k | 0 <= k <= |t|
      ensures !(q <= t[k..])
      ensures k > 0 ==> !(p <= t[k..])
    {
      NotAt(p, q, "", u, k);
      assert q + "" == q && p + "" == p;
      if k > 0 {
        NotAt(p, p, "", u, k);
      }
    }
    NotContained(t, q);
    assert forall k :: 0 <= k <= |t| - 1 ==> t[1..][k..] == t[k + 1..];
    NotContained(t[1..], p);
  }

  /** With one marker, a listed guard is mentioned exactly when its name starts what follows the marker. */
  lemma {:induction false} MentionedIffPrefix(pre: Marker, post: Marker, l: string, rest: string)
    requires pre.named && |pre.text| > 0 && OneMarker(pre, post, pre.text + rest)
    ensures var t := pre.text + rest;
            Contains(t, Fill(pre, l)) || Contains(t, Fill(post, l)) <==> l <= rest
  {
    var t := pre.text + rest;
    assert post.text + "" == post.text;
    if Contains(t, Fill(post, l)) {
      ContainsLess(t, post.text, if post.named then l else "");
    }
    if pre.text + l <= t {
      assert l == (pre.text + l)[|pre.text|..];
    } else if Contains(t, pre.text + l) {
      ContainsLess(t[1..], pre.text, l);
    }
    if l <= rest {
      assert pre.text + l <= t;
    }
  }

  /** A word is a prefix of a longer text exactly when it is a prefix of the name that ends there. */
  lemma {:induction false} PrefixOfName(l: string, u: string, tail: string)
    requires tail == "" || (!IsWordChar(tail[0]) && forall c :: c in l ==> IsWordChar(c))
    ensures l <= u + tail <==> l <= u
  {
    var t := u + tail;
    if tail == "" {
      assert t == u;
    } else if |l| > |u| {
      assert l[|u|] in l;
      assert l[|u|] != t[|u|];
    } else {
      assert t[..|l|] == u[..|l|];
    }
  }

  lemma {:induction false} ListedGuardMentioned(
      pre: Marker, post: Marker, names: seq<string>, l: string, u: string, open: string)
    requires Separated(pre, post) && IsName(u) && Opens(pre, post, names, u, open) && l in names
    ensures Mentions(open, Guard(Fill(pre, l), Fill(post, l))) <==> l <= u
  {
    var t := Strip(open);
    var tail := t[|pre.text + u|..];
    assert t == pre.text + (u + tail);
    if tail == "" {
      assert t == pre.text + u;
      ExactHasOneMarker(pre, post, u);
    }
    MentionedIffPrefix(pre, post, l, u + tail);
    PrefixOfName(l, u, tail);
  }

  lemma {:induction false} OpeningIsGuard(pre: Marker, post: Marker, names: seq<string>, name: string, open: string)
    requires Separated(pre, post) && IsName(name) && Opens(pre, post, names, name, open)
    ensures IsGuard(pre, open)
  {
    assert name[0] in name && name[1] in name;
    assert pre.text + name <= Strip(open);
  }

  /** The guard that is found is one of the listed names, and that name is a prefix. */
  lemma {:induction false} FoundIsPrefix(pre: Marker, post: Marker, names: seq<string>, name: string, open: string)
    requires Separated(pre, post) && IsName(name) && Opens(pre, post, names, name, open)
    requires FindGuard(open, CreateGuards(pre, post, names)).Some?
    ensures PrefixListed(names, name)
    ensures FindGuard(open, CreateGuards(pre, post, names)).value.post <= Fill(post, name)
  {
    var i := FoundAt(open, CreateGuards(pre, post, names));
    assert names[i] in names;
    ListedGuardMentioned(pre, post, names, names[i], name, open);
    FillLonger(post, names[i], name);
  }

  lemma {:induction false} FoundAt(line: string, guards: seq<Guard>) returns (i: nat)
    requires FindGuard(line, guards).Some?
    ensures i < |guards| && guards[i] == FindGuard(line, guards).value && Mentions(line, guards[i])
  {
    i :| 0 <= i < |guards| && guards[i] == FindGuard(line, guards).value && Mentions(line, guards[i]);
  }

  lemma {:induction false} FillLonger(marker: Marker, l: string, u: string)
    requires l <= u
    ensures Fill(marker, l) <= Fill(marker, u)
  {
    assert u[..|l|] == l;
  }

  lemma {:induction false} PrefixIsFound(pre: Marker, post: Marker, names: seq<string>, name: string, open: string)
    requires Separated(pre, post) && IsName(name) && Opens(pre, post, names, name, open)
    requires PrefixListed(names, name)
    ensures FindGuard(open, CreateGuards(pre, post, names)).Some?
  {
    var guards := CreateGuards(pre, post, names);
    var l :| l in names && l <= name;
    var i :| 0 <= i < |names| && names[i] == l;
    assert guards[i] in guards;
    ListedGuardMentioned(pre, post, names, l, name, open);
  }

  lemma {:induction false} OpeningLine(pre: Marker, post: Marker, names: seq<string>, name: string, open: string)
    requires Separated(pre, post) && IsName(name) && Opens(pre, post, names, name, open)
    ensures IsGuard(pre, open)
    ensures var found := FindGuard(open, CreateGuards(pre, post, names));
            && (found.Some? <==> PrefixListed(names, name))
            && (found.Some? ==> found.value.post <= Fill(post, name))
  {
    OpeningIsGuard(pre, post, names, name, open);
    if FindGuard(open, CreateGuards(pre, post, names)).Some? {
      FoundIsPrefix(pre, post, names, name, open);
    }
    if PrefixListed(names, name) {
      PrefixIsFound(pre, post, names, name, open);
    }
  }

  lemma {:induction false} ClosingLine(pre: Marker, post: Marker, name: string, close: string)
    requires Separated(pre, post) && IsName(name) && Closes(post, name, close)
    ensures !IsGuard(pre, close) && IsGuard(post, close)
  {
    var p, q, t := pre.text, post.text, Strip(close);
    assert p[0..] == p;
    assert name[0] in name && name[1] in name;
    assert q <= t;
    if |p| <= |t| {
      var i: nat;
      if |p| <= |q| {
        i := Mismatch(p, q);
      } else {
        i := Mismatch(q, p);
      }
      assert p[i] != t[i];
    }
  }

  /** Marker lines may be indented and may end in white space, such as their newline. */
  lemma {:induction false} IndentedMarkers(
      pre: Marker, post: Marker, names: seq<string>, name: string, before: string, after: string)
    requires Separated(pre, post) && IsName(name) && AllSpace(before) && AllSpace(after)
    ensures Opens(pre, post, names, name, before + (pre.text + name) + after)
    ensures Closes(post, name, before + (if post.named then post.text + name else post.text) + after)
  {
    assert name[|name| - 1] in name;
    StripSurrounded(before, Fill(pre, name), after);
    StripSurrounded(before, Fill(post, name), after);
  }

  // ---------------------------------------------------------------- the machine on trees

  lemma {:induction false} RunConcat(
      pre: Marker, post: Marker, guards: seq<Guard>, st: State, xs: seq<string>, ys: seq<string>)
    ensures RunFrom(pre, post, guards, st, xs + ys) ==
            match RunFrom(pre, post, guards, st, xs)
            case Err(e) => Err(e)
            case Ok(mid) => RunFrom(pre, post, guards, mid, ys)
    decreases |xs|
  {
    if xs == [] {
      assert xs + ys == ys;
    } else {
      assert (xs + ys)[1..] == xs[1..] + ys;
      var next := Step(pre, post, guards, st, xs[0]);
      if next.Ok? {
        RunConcat(pre, post, guards, next.value, xs[1..], ys);
      }
    }
  }

  /** What a run over a rendered tree adds to the output. */
  function Added(names: seq<string>, stack: Stack, doc: seq<Node>): seq<string> {
    if AllListed(stack) then Kept(KeepPrefixListed(names), doc) else []
  }

  lemma {:induction false} KeptSplit(keep: string -> bool, doc: seq<Node>)
    requires doc != []
    ensures Kept(keep, doc) == Kept(keep, [doc[0]]) + Kept(keep, doc[1..])
  {
    assert [doc[0]][1..] == [];
  }

  lemma {:induction false} AddedSplit(names: seq<string>, stack: Stack, out: seq<string>, doc: seq<Node>)
    requires doc != []
    ensures out + Added(names, stack, doc) == out + Added(names, stack, [doc[0]]) + Added(names, stack, doc[1..])
  {
    var keep := KeepPrefixListed(names);
    KeptSplit(keep, doc);
    AppendTwice(out, Kept(keep, [doc[0]]), Kept(keep, doc[1..]));
  }

  lemma {:induction false} AppendTwice(out: seq<string>, xs: seq<string>, ys: seq<string>)
    ensures out + (xs + ys) == out + xs + ys
    ensures out + [] == out + [] + []
  {
    assert out + [] == out;
  }

  lemma {:induction false} PlainStep(
      pre: Marker, post: Marker, names: seq<string>, guards: seq<Guard>, st: State, text: string)
    requires IsPlain(pre, post, text)
    ensures Step(pre, post, guards, st, text) == Ok(State(st.stack, st.out + Added(names, st.stack, [Line(text)])))
  {
    assert Kept(KeepPrefixListed(names), [Line(text)]) == [text];
    assert st.out + [] == st.out;
  }

  lemma {:induction false} AllListedPush(stack: Stack, g: Option<Guard>)
    ensures AllListed(stack + [g]) <==> AllListed(stack) && g.Some?
  {
    if AllListed(stack + [g]) {
      assert g in stack + [g];
      assert forall h :: h in stack ==> h in stack + [g];
    }
  }

  lemma RunOne(pre: Marker, post: Marker, guards: seq<Guard>, st: State, line: string)
    ensures RunFrom(pre, post, guards, st, [line]) == Step(pre, post, guards, st, line)
  {
  }

  /** A run over a concatenation, given where the first part ends. */
  lemma {:induction false} RunThen(
      pre: Marker, post: Marker, guards: seq<Guard>, st: State, xs: seq<string>, mid: State, ys: seq<string>)
    requires RunFrom(pre, post, guards, st, xs) == Ok(mid)
    ensures RunFrom(pre, post, guards, st, xs + ys) == RunFrom(pre, post, guards, mid, ys)
  {
    RunConcat(pre, post, guards, st, xs, ys);
  }

  lemma {:induction false} OpenStep(
      pre: Marker, post: Marker, names: seq<string>, st: State, name: string, open: string)
    requires Separated(pre, post) && IsName(name) && Opens(pre, post, names, name, open)
    ensures var guards := CreateGuards(pre, post, names);
            Step(pre, post, guards, st, open) == Ok(State(st.stack + [FindGuard(open, guards)], st.out))
  {
    OpeningLine(pre, post, names, name, open);
  }

  lemma {:induction false} CloseStep(
      pre: Marker, post: Marker, guards: seq<Guard>, stack: Stack, g: Option<Guard>, out: seq<string>, name: string,
      close: string)
    requires Separated(pre, post) && IsName(name) && Closes(post, name, close)
    requires g.Some? ==> g.value.post <= Fill(post, name)
    ensures Step(pre, post, guards, State(stack + [g], out), close) == Ok(State(stack, out))
  {
    ClosingLine(pre, post, name, close);
    assert (stack + [g])[..|stack|] == stack;
  }

  function RenderNode(node: Node): seq<string> {
    match node
    case Line(text) => [text]
    case Block(_, open, close, body) => [open] + Render(body) + [close]
  }

  /** The markers of a block cancel out, and its name decides whether its body counts. */
  lemma {:induction false} BlockStep(
      pre: Marker, post: Marker, names: seq<string>, st: State, block: Node, inside: State, end: State)
    requires Separated(pre, post) && block.Block? && WellFormed(pre, post, names, [block])
    requires inside == State(st.stack + [FindGuard(block.open, CreateGuards(pre, post, names))], st.out)
    requires RunFrom(pre, post, CreateGuards(pre, post, names), inside, Render(block.body)) == Ok(end)
    requires end.stack == inside.stack
    ensures RunFrom(pre, post, CreateGuards(pre, post, names), st, RenderNode(block)) == Ok(State(st.stack, end.out))
  {
    var guards := CreateGuards(pre, post, names);
    var found := FindGuard(block.open, guards);
    var lines := [block.open] + Render(block.body);
    OpeningLine(pre, post, names, block.name, block.open);
    OpenStep(pre, post, names, st, block.name, block.open);
    RunOne(pre, post, guards, st, block.open);
    RunThen(pre, post, guards, st, [block.open], inside, Render(block.body));
    CloseStep(pre, post, guards, st.stack, found, end.out, block.name, block.close);
    RunOne(pre, post, guards, end, block.close);
    RunThen(pre, post, guards, st, lines, end, [block.close]);
  }

  lemma {:induction false} KeptBlock(keep: string -> bool, block: Node)
    requires block.Block?
    ensures Kept(keep, [block]) == if keep(block.name) then Kept(keep, block.body) else []
  {
    assert [block][1..] == [];
    assert Kept(keep, []) == [];
  }

  lemma {:induction false} BlockAdds(names: seq<string>, stack: Stack, g: Option<Guard>, block: Node)
    requires block.Block? && (g.Some? <==> PrefixListed(names, block.name))
    ensures Added(names, stack + [g], block.body) == Added(names, stack, [block])
  {
    KeptBlock(KeepPrefixListed(names), block);
    AllListedPush(stack, g);
  }

  lemma {:induction false} RunOnNode(pre: Marker, post: Marker, names: seq<string>, st: State, node: Node)
    requires Separated(pre, post) && WellFormed(pre, post, names, [node])
    ensures RunFrom(pre, post, CreateGuards(pre, post, names), st, RenderNode(node)) ==
            Ok(State(st.stack, st.out + Added(names, st.stack, [node])))
    decreases node, 1
  {
    var guards := CreateGuards(pre, post, names);
    if node.Line? {
      PlainStep(pre, post, names, guards, st, node.text);
      RunOne(pre, post, guards, st, node.text);
    } else {
      var inside := State(st.stack + [FindGuard(node.open, guards)], st.out);
      var end := State(inside.stack, st.out + Added(names, inside.stack, node.body));
      RunOnTree(pre, post, names, inside, node.body);
      BlockStep(pre, post, names, st, node, inside, end);
      OpeningLine(pre, post, names, node.name, node.open);
      BlockAdds(names, st.stack, FindGuard(node.open, guards), node);
    }
  }

  /** Running over a rendered tree leaves the stack alone and adds the kept lines. */
  lemma {:induction false} RunOnTree(pre: Marker, post: Marker, names: seq<string>, st: State, doc: seq<Node>)
    requires Separated(pre, post) && WellFormed(pre, post, names, doc)
    ensures RunFrom(pre, post, CreateGuards(pre, post, names), st, Render(doc)) ==
            Ok(State(st.stack, st.out + Added(names, st.stack, doc)))
    decreases doc, 0
  {
    if doc == [] {
      assert st.out + [] == st.out;
    } else {
      var first, rest := doc[0], doc[1..];
      var mid := State(st.stack, st.out + Added(names, st.stack, [first]));
      RunOnNode(pre, post, names, st, first);
      RunOnTree(pre, post, names, mid, rest);
      RunThen(pre, post, CreateGuards(pre, post, names), st, RenderNode(first), mid, Render(rest));
      assert Render(doc) == RenderNode(first) + Render(rest);
      AddedSplit(names, st.stack, st.out, doc);
    }
  }

  /**
   On every well-nested document the machine completes and outputs exactly the plain lines all
   of whose enclosing guard names have a listed prefix.
   */
  lemma {:induction false} StripOnTree(pre: Marker, post: Marker, names: seq<string>, doc: seq<Node>)
    requires Separated(pre, post) && WellFormed(pre, post, names, doc)
    ensures StripLines(Render(doc), pre, post, names) == Ok(Kept(KeepPrefixListed(names), doc))
  {
    RunOnTree(pre, post, names, State([], []), doc);
    assert AllListed([]);
    assert [] + Kept(KeepPrefixListed(names), doc) == Kept(KeepPrefixListed(names), doc);
  }

  // ---------------------------------------------------------------- the promise of the documentation

  /** On every document with these guard names exactly the lines inside listed blocks are kept. */
  ghost predicate KeepsPromise(pre: Marker, post: Marker, names: seq<string>, used: set<string>) {
    forall doc :: WellFormed(pre, post, names, doc) && NamesIn(used, doc) ==>
      StripLines(Render(doc), pre, post, names) == Ok(Kept(KeepListed(names), doc))
  }

  lemma {:induction false} KeptAgrees(p: string -> bool, q: string -> bool, used: set<string>, doc: seq<Node>)
    requires NamesIn(used, doc) && forall n :: n in used ==> p(n) == q(n)
    ensures Kept(p, doc) == Kept(q, doc)
    decreases doc
  {
    if doc != [] {
      if doc[0].Block? {
        KeptAgrees(p, q, used, doc[0].body);
      }
      KeptAgrees(p, q, used, doc[1..]);
    }
  }

  lemma {:induction false} MarkerIsStripped(pre: Marker, post: Marker, name: string)
    requires Separated(pre, post) && IsName(name)
    ensures Strip(Fill(pre, name)) == Fill(pre, name) && Strip(Fill(post, name)) == Fill(post, name)
  {
    assert name[|name| - 1] in name;
  }

  /** A document with one line inside one block. */
  lemma {:induction false} OneBlock(
      pre: Marker, post: Marker, names: seq<string>, name: string)
    returns (doc: seq<Node>)
    requires Separated(pre, post) && IsName(name)
    ensures WellFormed(pre, post, names, doc) && NamesIn({name}, doc)
    ensures forall keep: string -> bool :: Kept(keep, doc) == if keep(name) then [""] else []
  {
    MarkerIsStripped(pre, post, name);
    var body := [Line("")];
    assert WellFormed(pre, post, names, body);
    doc := [Block(name, Fill(pre, name), Fill(post, name), body)];
    forall keep: string -> bool
      ensures Kept(keep, doc) == if keep(name) then [""] else []
    {
      assert Kept(keep, body) == [""];
      assert doc[1..] == [];
    }
  }

  lemma {:induction false} NamesInMore(some: set<string>, more: set<string>, doc: seq<Node>)
    requires some <= more && NamesIn(some, doc)
    ensures NamesIn(more, doc)
    decreases doc
  {
    if doc != [] {
      if doc[0].Block? {
        NamesInMore(some, more, doc[0].body);
      }
      NamesInMore(some, more, doc[1..]);
    }
  }

  /** The promise holds exactly when no listed name is a prefix of a used name that is not listed. */
  lemma {:induction false} PromiseIffNoPrefix(pre: Marker, post: Marker, names: seq<string>, used: set<string>)
    requires Separated(pre, post) && forall u :: u in used ==> IsName(u)
    ensures KeepsPromise(pre, post, names, used) <==>
              forall u, l :: u in used && l in names && l <= u ==> u in names
  {
    var p, q := KeepPrefixListed(names), KeepListed(names);
    if forall u, l :: u in used && l in names && l <= u ==> u in names {
      forall doc | WellFormed(pre, post, names, doc) && NamesIn(used, doc)
        ensures StripLines(Render(doc), pre, post, names) == Ok(Kept(q, doc))
      {
        StripOnTree(pre, post, names, doc);
        KeptAgrees(p, q, used, doc);
      }
    } else {
      var u, l :| u in used && l in names && l <= u && u !in names;
      var doc := OneBlock(pre, post, names, u);
      NamesInMore({u}, used, doc);
      StripOnTree(pre, post, names, doc);
      assert p(u) && !q(u);
      assert Kept(p, doc) != Kept(q, doc);
    }
  }

  /** Listing a name also keeps the lines guarded by any longer name that starts with it. */
  lemma {:induction false} ListedPrefixKeepsTooMuch(pre: Marker, post: Marker, l: string, u: string)
    requires Separated(pre, post) && IsName(u) && l < u
    ensures !KeepsPromise(pre, post, [l], {u})
  {
    PromiseIffNoPrefix(pre, post, [l], {u});
    assert l in [l] && u !in [l];
  }

  /** The default markers, filled in. */
  lemma {:induction false} DefaultMarkers(name: string)
    ensures Fill(DEFAULT_PRE, name) == "#if " + name && Fill(DEFAULT_POST, name) == "#endif"
  {
  }

  /** A named marker is recognised when two characters of a name follow it, whatever comes after them. */
  lemma {:induction false} GuardLineIff(marker: Marker, line: string)
    ensures IsGuard(marker, line) <==>
              if !marker.named then marker.text <= Strip(line)
              else exists name, rest :: IsName(name) && Strip(line) == marker.text + name + rest
  {
    var t, n := Strip(line), |marker.text|;
    if marker.named && IsGuard(marker, line) {
      var name, rest := t[n..n + 2], t[n + 2..];
      assert t == marker.text + name + rest && IsName(name);
    }
    if name, rest :| IsName(name) && t == marker.text + name + rest {
      assert t[n] == name[0] && t[n + 1] == name[1] && name[1] in name;
    }
  }

  /** The failing case on the default markers: listing FOO also keeps what FOOBAR guards. */
  lemma {:induction false} FooKeepsFoobar()
    ensures !KeepsPromise(DEFAULT_PRE, DEFAULT_POST, ["FOO"], {"FOOBAR"})
  {
    DefaultsAreSeparated();
    assert "FOO" < "FOOBAR";
    ListedPrefixKeepsTooMuch(DEFAULT_PRE, DEFAULT_POST, "FOO", "FOOBAR");
  }

  // ---------------------------------------------------------------- any input lines

  lemma {:induction false} SubsequenceSkip<T>(xs: seq<T>, ys: seq<T>, y: T)
    requires IsSubsequence(xs, ys)
    ensures IsSubsequence(xs, ys + [y])
    decreases |ys|
  {
    if xs != [] {
      assert (ys + [y])[1..] == ys[1..] + [y];
      if xs[0] == ys[0] {
        SubsequenceSkip(xs[1..], ys[1..], y);
      } else {
        SubsequenceSkip(xs, ys[1..], y);
      }
    }
  }

  lemma {:induction false} SubsequenceBoth<T>(xs: seq<T>, ys: seq<T>, y: T)
    requires IsSubsequence(xs, ys)
    ensures IsSubsequence(xs + [y], ys + [y])
    decreases |ys|
  {
    if ys == [] {
      assert xs + [y] == [y] && ys + [y] == [y];
    } else {
      assert (ys + [y])[1..] == ys[1..] + [y];
      if xs == [] {
        assert xs + [y] == [y];
        SubsequenceBoth(xs, ys[1..], y);
      } else if xs[0] == ys[0] {
        assert (xs + [y])[1..] == xs[1..] + [y];
        SubsequenceBoth(xs[1..], ys[1..], y);
      } else {
        SubsequenceBoth(xs, ys[1..], y);
      }
    }
  }

  lemma {:induction false} OutputIsPlain(
      pre: Marker, post: Marker, guards: seq<Guard>, st: State, seen: seq<string>, lines: seq<string>)
    requires RunFrom(pre, post, guards, st, lines).Ok?
    requires IsSubsequence(st.out, seen) && forall x :: x in st.out ==> IsPlain(pre, post, x)
    ensures var out := RunFrom(pre, post, guards, st, lines).value.out;
            IsSubsequence(out, seen + lines) && forall x :: x in out ==> IsPlain(pre, post, x)
    decreases |lines|
  {
    if lines == [] {
      assert seen + lines == seen;
    } else {
      var next := Step(pre, post, guards, st, lines[0]).value;
      SubsequenceSkip(st.out, seen, lines[0]);
      SubsequenceBoth(st.out, seen, lines[0]);
      OutputIsPlain(pre, post, guards, next, seen + [lines[0]], lines[1..]);
      assert seen + [lines[0]] + lines[1..] == seen + lines;
    }
  }

  /** The output is a subsequence of the input without any marker line. */
  lemma {:induction false} StripGivesPlainSubsequence(lines: seq<string>, pre: Marker, post: Marker, names: seq<string>)
    requires StripLines(lines, pre, post, names).Ok?
    ensures var out := StripLines(lines, pre, post, names).value;
            IsSubsequence(out, lines) && forall x :: x in out ==> IsPlain(pre, post, x)
  {
    OutputIsPlain(pre, post, CreateGuards(pre, post, names), State([], []), [], lines);
    assert [] + lines == lines;
  }

  lemma {:induction false} PlainLinesPass(
      pre: Marker, post: Marker, guards: seq<Guard>, out: seq<string>, lines: seq<string>)
    requires forall x :: x in lines ==> IsPlain(pre, post, x)
    ensures RunFrom(pre, post, guards, State([], out), lines) == Ok(State([], out + lines))
    decreases |lines|
  {
    if lines == [] {
      assert out + lines == out;
    } else {
      assert IsPlain(pre, post, lines[0]) && AllListed([]);
      assert Step(pre, post, guards, State([], out), lines[0]) == Ok(State([], out + [lines[0]]));
      PlainLinesPass(pre, post, guards, out + [lines[0]], lines[1..]);
      assert out + [lines[0]] + lines[1..] == out + lines;
    }
  }

  /** Stripping again, with any list of names, changes nothing. */
  lemma {:induction false} StripIsIdempotent(
      lines: seq<string>, pre: Marker, post: Marker, names: seq<string>, names': seq<string>)
    requires StripLines(lines, pre, post, names).Ok?
    ensures var out := StripLines(lines, pre, post, names).value;
            StripLines(out, pre, post, names') == Ok(out)
  {
    var out := StripLines(lines, pre, post, names).value;
    StripGivesPlainSubsequence(lines, pre, post, names);
    PlainLinesPass(pre, post, CreateGuards(pre, post, names'), [], out);
    assert [] + out == out;
  }

  /** Every block that is listed in the first stack is listed in the second. */
  predicate Below(stack: Stack, stack': Stack) {
    |stack| == |stack'| && forall i :: 0 <= i < |stack| && stack[i].Some? ==> stack'[i].Some?
  }

  lemma {:induction false} FindMore(line: string, pre: Marker, post: Marker, names: seq<string>, names': seq<string>)
    requires forall n :: n in names ==> n in names'
    ensures FindGuard(line, CreateGuards(pre, post, names)).Some? ==>
              FindGuard(line, CreateGuards(pre, post, names')).Some?
  {
    var guards, guards' := CreateGuards(pre, post, names), CreateGuards(pre, post, names');
    var found := FindGuard(line, guards);
    if found.Some? {
      var i :| 0 <= i < |guards| && guards[i] == found.value;
      assert names[i] in names';
      var j :| 0 <= j < |names'| && names'[j] == names[i];
      assert guards'[j] == found.value;
    }
  }

  lemma {:induction false} AllListedMore(stack: Stack, stack': Stack)
    requires Below(stack, stack') && AllListed(stack)
    ensures AllListed(stack')
  {
    forall g | g in stack'
      ensures g.Some?
    {
      var i :| 0 <= i < |stack'| && stack'[i] == g;
      assert stack[i] in stack;
    }
  }

  lemma {:induction false} StepMore(
      pre: Marker, post: Marker, names: seq<string>, names': seq<string>, st: State, st': State, line: string)
    requires forall n :: n in names ==> n in names'
    requires Below(st.stack, st'.stack) && IsSubsequence(st.out, st'.out)
    requires Step(pre, post, CreateGuards(pre, post, names), st, line).Ok?
    requires Step(pre, post, CreateGuards(pre, post, names'), st', line).Ok?
    ensures var next := Step(pre, post, CreateGuards(pre, post, names), st, line).value;
            var next' := Step(pre, post, CreateGuards(pre, post, names'), st', line).value;
            Below(next.stack, next'.stack) && IsSubsequence(next.out, next'.out)
  {
    if IsGuard(pre, line) {
      FindMore(line, pre, post, names, names');
    } else if !IsGuard(post, line) {
      if AllListed(st.stack) {
        AllListedMore(st.stack, st'.stack);
      }
      SubsequenceSkip(st.out, st'.out, line);
      SubsequenceBoth(st.out, st'.out, line);
    }
  }

  lemma {:induction false} RunMore(
      pre: Marker, post: Marker, names: seq<string>, names': seq<string>, st: State, st': State, lines: seq<string>)
    requires forall n :: n in names ==> n in names'
    requires Below(st.stack, st'.stack) && IsSubsequence(st.out, st'.out)
    requires RunFrom(pre, post, CreateGuards(pre, post, names), st, lines).Ok?
    requires RunFrom(pre, post, CreateGuards(pre, post, names'), st', lines).Ok?
    ensures IsSubsequence(RunFrom(pre, post, CreateGuards(pre, post, names), st, lines).value.out,
                          RunFrom(pre, post, CreateGuards(pre, post, names'), st', lines).value.out)
    decreases |lines|
  {
    if lines != [] {
      var line := lines[0];
      var next := Step(pre, post, CreateGuards(pre, post, names), st, line).value;
      var next' := Step(pre, post, CreateGuards(pre, post, names'), st', line).value;
      StepMore(pre, post, names, names', st, st', line);
      RunMore(pre, post, names, names', next, next', lines[1..]);
    }
  }

  /** Listing more names never loses a line, when both runs complete. */
  lemma {:induction false} MoreNamesKeepMore(
      lines: seq<string>, pre: Marker, post: Marker, names: seq<string>, names': seq<string>)
    requires forall n :: n in names ==> n in names'
    requires StripLines(lines, pre, post, names).Ok? && StripLines(lines, pre, post, names').Ok?
    ensures IsSubsequence(StripLines(lines, pre, post, names).value, StripLines(lines, pre, post, names').value)
  {
    RunMore(pre, post, names, names', State([], []), State([], []), lines);
  }

  // ---------------------------------------------------------------- when a run completes

  /** How much a line changes the depth of nesting. */
  function Change(pre: Marker, post: Marker, line: string): int {
    if IsGuard(pre, line) then 1 else if IsGuard(post, line) then -1 else 0
  }

  function Depth(pre: Marker, post: Marker, lines: seq<string>): int {
    if lines == [] then 0
    else Depth(pre, post, lines[..|lines| - 1]) + Change(pre, post, lines[|lines| - 1])
  }

  ghost predicate NeverBelow(pre: Marker, post: Marker, lines: seq<string>) {
    forall k :: 0 <= k <= |lines| ==> Depth(pre, post, lines[..k]) >= 0
  }

  /** Line `i` opens a block at depth `d` that is not closed before line `n`. */
  ghost predicate OpenAt(pre: Marker, post: Marker, lines: seq<string>, n: int, i: int, d: int) {
    && 0 <= i < n <= |lines|
    && IsGuard(pre, lines[i])
    && Depth(pre, post, lines[..i]) == d
    && forall m :: i < m <= n ==> Depth(pre, post, lines[..m]) > d
  }

  /** Line `j` closes the block that line `i` opens. */
  ghost predicate Matches(pre: Marker, post: Marker, lines: seq<string>, i: int, j: int) {
    && 0 <= j < |lines|
    && Change(pre, post, lines[j]) == -1
    && OpenAt(pre, post, lines, j, i, Depth(pre, post, lines[..j]) - 1)
  }

  /** If a listed guard is found in the opening line, the closing line starts with its marker. */
  predicate Agree(guards: seq<Guard>, open: string, close: string) {
    var found := FindGuard(open, guards);
    found.Some? ==> found.value.post <= Strip(close)
  }

  /** No block is closed twice, and every closing line agrees with the opening line it matches. */
  ghost predicate Nested(pre: Marker, post: Marker, guards: seq<Guard>, lines: seq<string>) {
    && NeverBelow(pre, post, lines)
    && forall i, j :: Matches(pre, post, lines, i, j) ==> Agree(guards, lines[i], lines[j])
  }

  /** The stack holds what was found in the lines that opened the blocks which are still open. */
  ghost predicate StackIsOpen(pre: Marker, post: Marker, guards: seq<Guard>, lines: seq<string>, stack: Stack) {
    && |stack| == Depth(pre, post, lines)
    && forall d :: 0 <= d < |stack| ==> HasOpener(pre, post, guards, lines, d, stack[d])
  }

  ghost predicate HasOpener(
    pre: Marker, post: Marker, guards: seq<Guard>, lines: seq<string>, d: int, found: Option<Guard>)
  {
    exists i :: IsOpener(pre, post, guards, lines, i, d, found)
  }

  /** Line `i` opened the block at depth `d`, and `found` is what was found in it. */
  ghost predicate IsOpener(
    pre: Marker, post: Marker, guards: seq<Guard>, lines: seq<string>, i: int, d: int, found: Option<Guard>)
  {
    OpenAt(pre, post, lines, |lines|, i, d) && found == FindGuard(lines[i], guards)
  }

  lemma {:induction false} DepthPrefix(pre: Marker, post: Marker, front: seq<string>, line: string)
    ensures Depth(pre, post, front + [line]) == Depth(pre, post, front) + Change(pre, post, line)
    ensures forall k :: 0 <= k <= |front| ==> (front + [line])[..k] == front[..k]
    ensures (front + [line])[..|front| + 1] == front + [line]
  {
    assert (front + [line])[..|front|] == front;
  }

  lemma {:induction false} OpenAtUnique(pre: Marker, post: Marker, lines: seq<string>, n: int, i: int, j: int, d: int)
    requires OpenAt(pre, post, lines, n, i, d) && OpenAt(pre, post, lines, n, j, d)
    ensures i == j
  {
  }

  /** A block stays open as long as the depth stays above its own. */
  lemma {:induction false} StaysOpen(pre: Marker, post: Marker, front: seq<string>, line: string, i: int, d: int)
    requires OpenAt(pre, post, front, |front|, i, d)
    ensures OpenAt(pre, post, front + [line], |front|, i, d)
    ensures Depth(pre, post, front + [line]) > d ==> OpenAt(pre, post, front + [line], |front| + 1, i, d)
  {
    DepthPrefix(pre, post, front, line);
  }

  lemma {:induction false} WasOpen(pre: Marker, post: Marker, front: seq<string>, line: string, n: int, i: int, d: int)
    requires n <= |front| && OpenAt(pre, post, front + [line], n, i, d)
    ensures OpenAt(pre, post, front, n, i, d)
  {
    DepthPrefix(pre, post, front, line);
    assert (front + [line])[i] == front[i];
    forall m | i < m <= n
      ensures Depth(pre, post, front[..m]) > d
    {
      assert (front + [line])[..m] == front[..m];
    }
  }

  /** Being nested, line by line: the last line must not close too much, and must agree with its match. */
  lemma {:induction false} NestedStep(
      pre: Marker, post: Marker, guards: seq<Guard>, front: seq<string>, line: string)
    ensures var lines := front + [line];
            Nested(pre, post, guards, lines) <==>
              && Nested(pre, post, guards, front)
              && Depth(pre, post, lines) >= 0
              && forall i :: Matches(pre, post, lines, i, |front|) ==> Agree(guards, lines[i], line)
  {
    var lines := front + [line];
    DepthPrefix(pre, post, front, line);
    assert NeverBelow(pre, post, lines) <==> NeverBelow(pre, post, front) && Depth(pre, post, lines) >= 0 by {
      NeverBelowStep(pre, post, front, line);
    }
    forall i, j | 0 <= j < |front|
      ensures Matches(pre, post, lines, i, j) <==> Matches(pre, post, front, i, j)
    {
      MatchesStep(pre, post, front, line, i, j);
    }
  }

  lemma {:induction false} NeverBelowStep(pre: Marker, post: Marker, front: seq<string>, line: string)
    ensures NeverBelow(pre, post, front + [line]) <==>
              NeverBelow(pre, post, front) && Depth(pre, post, front + [line]) >= 0
  {
    var lines := front + [line];
    DepthPrefix(pre, post, front, line);
    if NeverBelow(pre, post, lines) {
      forall k | 0 <= k <= |front|
        ensures Depth(pre, post, front[..k]) >= 0
      {
        assert lines[..k] == front[..k];
      }
      assert lines[..|lines|] == lines;
    }
  }

  lemma {:induction false} MatchesStep(
      pre: Marker, post: Marker, front: seq<string>, line: string, i: int, j: int)
    requires 0 <= j < |front|
    ensures Matches(pre, post, front + [line], i, j) <==> Matches(pre, post, front, i, j)
  {
    var lines := front + [line];
    DepthPrefix(pre, post, front, line);
    assert lines[..j] == front[..j] && lines[j] == front[j];
    var d := Depth(pre, post, front[..j]) - 1;
    if OpenAt(pre, post, lines, j, i, d) {
      WasOpen(pre, post, front, line, j, i, d);
    }
    if OpenAt(pre, post, front, j, i, d) {
      assert lines[i] == front[i] && lines[..i] == front[..i];
      forall m | i < m <= j
        ensures Depth(pre, post, lines[..m]) > d
      {
        assert lines[..m] == front[..m];
      }
    }
  }

  lemma {:induction false} RunAppend(
      pre: Marker, post: Marker, guards: seq<Guard>, st: State, lines: seq<string>, line: string)
    ensures RunFrom(pre, post, guards, st, lines + [line]) ==
            match RunFrom(pre, post, guards, st, lines)
            case Err(e) => Err(e)
            case Ok(mid) => Step(pre, post, guards, mid, line)
  {
    RunConcat(pre, post, guards, st, lines, [line]);
    if RunFrom(pre, post, guards, st, lines).Ok? {
      RunOne(pre, post, guards, RunFrom(pre, post, guards, st, lines).value, line);
    }
  }

  /** A step that does not close keeps the stack in order. */
  lemma {:induction false} OtherStep(
      pre: Marker, post: Marker, guards: seq<Guard>, front: seq<string>, st: State, line: string)
    requires StackIsOpen(pre, post, guards, front, st.stack) && Change(pre, post, line) >= 0
    ensures var next := Step(pre, post, guards, st, line);
            next.Ok? && StackIsOpen(pre, post, guards, front + [line], next.value.stack)
    ensures forall i :: !Matches(pre, post, front + [line], i, |front|)
  {
    var lines, stack := front + [line], Step(pre, post, guards, st, line).value.stack;
    DepthPrefix(pre, post, front, line);
    assert lines[|front|] == line;
    forall d | 0 <= d < |stack|
      ensures HasOpener(pre, post, guards, lines, d, stack[d])
    {
      if d < |st.stack| {
        OpenerStays(pre, post, guards, front, st.stack, line, d);
        assert stack[d] == st.stack[d];
      } else {
        assert lines[..|front|] == front;
        assert IsOpener(pre, post, guards, lines, |front|, d, stack[d]);
      }
    }
  }

  /** A step that closes succeeds exactly when there is a block to close and it agrees. */
  lemma {:induction false} CloseStepIff(
      pre: Marker, post: Marker, guards: seq<Guard>, front: seq<string>, st: State, line: string)
    requires StackIsOpen(pre, post, guards, front, st.stack) && Change(pre, post, line) == -1
    ensures var next, lines := Step(pre, post, guards, st, line), front + [line];
            && (next.Ok? <==> && Depth(pre, post, lines) >= 0
                              && forall i :: Matches(pre, post, lines, i, |front|) ==> Agree(guards, lines[i], line))
            && (next.Ok? ==> StackIsOpen(pre, post, guards, lines, next.value.stack))
  {
    var lines, next := front + [line], Step(pre, post, guards, st, line);
    DepthPrefix(pre, post, front, line);
    if st.stack != [] {
      var d := |st.stack| - 1;
      assert HasOpener(pre, post, guards, front, d, st.stack[d]);
      var top :| IsOpener(pre, post, guards, front, top, d, st.stack[d]);
      StaysOpen(pre, post, front, line, top, d);
      assert lines[top] == front[top] && lines[|front|] == line && lines[..|front|] == front;
      assert Matches(pre, post, lines, top, |front|);
      forall i | Matches(pre, post, lines, i, |front|)
        ensures i == top
      {
        OpenAtUnique(pre, post, lines, |front|, i, top, d);
      }
      if next.Ok? {
        StackPopped(pre, post, guards, front, st.stack, line);
      }
    }
  }

  lemma {:induction false} StackPopped(
      pre: Marker, post: Marker, guards: seq<Guard>, front: seq<string>, stack: Stack, line: string)
    requires StackIsOpen(pre, post, guards, front, stack) && Change(pre, post, line) == -1 && stack != []
    ensures StackIsOpen(pre, post, guards, front + [line], stack[..|stack| - 1])
  {
    var lines, rest := front + [line], stack[..|stack| - 1];
    DepthPrefix(pre, post, front, line);
    forall d | 0 <= d < |rest|
      ensures HasOpener(pre, post, guards, lines, d, rest[d])
    {
      OpenerStays(pre, post, guards, front, stack, line, d);
    }
  }

  lemma {:induction false} OpenerStays(
      pre: Marker, post: Marker, guards: seq<Guard>, front: seq<string>, stack: Stack, line: string, d: int)
    requires StackIsOpen(pre, post, guards, front, stack) && 0 <= d < |stack|
    requires Depth(pre, post, front + [line]) > d
    ensures HasOpener(pre, post, guards, front + [line], d, stack[d])
  {
    assert HasOpener(pre, post, guards, front, d, stack[d]);
    var i :| IsOpener(pre, post, guards, front, i, d, stack[d]);
    StaysOpen(pre, post, front, line, i, d);
    assert (front + [line])[i] == front[i];
    assert IsOpener(pre, post, guards, front + [line], i, d, stack[d]);
  }

  lemma {:induction false} RunCompletes(pre: Marker, post: Marker, guards: seq<Guard>, lines: seq<string>)
    ensures var r := RunFrom(pre, post, guards, State([], []), lines);
            && (r.Ok? <==> Nested(pre, post, guards, lines))
            && (r.Ok? ==> StackIsOpen(pre, post, guards, lines, r.value.stack))
  {
    if lines == [] {
      assert lines[..0] == [];
    } else {
      var front, line := lines[..|lines| - 1], lines[|lines| - 1];
      assert lines == front + [line];
      RunCompletes(pre, post, guards, front);
      RunAppend(pre, post, guards, State([], []), front, line);
      NestedStep(pre, post, guards, front, line);
      var before := RunFrom(pre, post, guards, State([], []), front);
      if before.Ok? {
        if Change(pre, post, line) == -1 {
          CloseStepIff(pre, post, guards, front, before.value, line);
        } else {
          OtherStep(pre, post, guards, front, before.value, line);
          DepthPrefix(pre, post, front, line);
        }
      }
    }
  }

  /**
   On any lines and with any markers, a run completes if and only if no prefix closes more blocks
   than it opens, and every closing line starts with the closing marker of the guard that was found
   in the opening line it matches.
   */
  lemma {:induction false} CompletesIffNested(lines: seq<string>, pre: Marker, post: Marker, names: seq<string>)
    ensures StripLines(lines, pre, post, names).Ok? <==> Nested(pre, post, CreateGuards(pre, post, names), lines)
  {
    RunCompletes(pre, post, CreateGuards(pre, post, names), lines);
  }

  /** With a closing marker that carries no name, as by default, a run fails only by closing too often. */
  lemma {:induction false} CompletesIffBalanced(lines: seq<string>, pre: Marker, post: Marker, names: seq<string>)
    requires !post.named
    ensures StripLines(lines, pre, post, names).Ok? <==> NeverBelow(pre, post, lines)
  {
    var guards := CreateGuards(pre, post, names);
    CompletesIffNested(lines, pre, post, names);
    forall i, j | Matches(pre, post, lines, i, j)
      ensures Agree(guards, lines[i], lines[j])
    {
      assert IsGuard(post, lines[j]);
    }
  }
}
