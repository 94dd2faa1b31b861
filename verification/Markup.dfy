/** HTML to readable text: a depth counter for silent elements, and a line collapse. */
module Markup {
  import opened Whitespace

  const SILENT := {"script", "style", "head", "meta", "link", "noscript"}

  /** Those of them that HTML never closes. */
  const VOID := {"meta", "link"}

  const BREAKS := {"p", "div", "br", "li", "tr", "section", "article", "header", "footer",
                   "h1", "h2", "h3", "h4", "h5", "h6", "blockquote", "pre", "table"}

  /** Which elements those are. */
  lemma WhichTags(tag: string)
    ensures tag in SILENT <==>
            tag == "script" || tag == "style" || tag == "head" || tag == "meta" || tag == "link" || tag == "noscript"
    ensures tag in BREAKS <==>
            || tag == "p" || tag == "div" || tag == "br" || tag == "li" || tag == "tr" || tag == "section"
            || tag == "article" || tag == "header" || tag == "footer" || tag == "h1" || tag == "h2" || tag == "h3"
            || tag == "h4" || tag == "h5" || tag == "h6" || tag == "blockquote" || tag == "pre" || tag == "table"
  {
  }

  /** What the HTML parser calls a handler with. */
  datatype Event = Start(tag: string) | End(tag: string) | Data(text: string)

  // ---- Silent elements.

  /** The collector: the parts kept so far and how deep in silent elements it is. */
  class TextCollector {
    var parts: seq<string>
    var silentDepth: nat
    /** Everything handled so far. */
    ghost var events: seq<Event>

    ghost predicate Valid()
      reads this
    {
      parts == Parts(events) && silentDepth == Depth(events)
    }

    constructor ()
      ensures Valid() && events == []
    {
      parts, silentDepth, events := [], 0, [];
    }

    method HandleStarttag(tag: string)
      requires Valid()
      modifies this
      ensures Valid() && events == old(events) + [Start(tag)]
    {
      events := events + [Start(tag)];
      assert events[..|events| - 1] == old(events);
      if tag in SILENT {
        silentDepth := silentDepth + 1;
      } else if tag in BREAKS {
        parts := parts + ["\n"];
      }
    }

    method HandleEndtag(tag: string)
      requires Valid()
      modifies this
      ensures Valid() && events == old(events) + [End(tag)]
    {
      events := events + [End(tag)];
      assert events[..|events| - 1] == old(events);
      if tag in SILENT {
        silentDepth := if silentDepth > 0 then silentDepth - 1 else 0;
      } else if tag in BREAKS {
        parts := parts + ["\n"];
      }
    }

    method HandleData(text: string)
      requires Valid()
      modifies this
      ensures Valid() && events == old(events) + [Data(text)]
    {
      events := events + [Data(text)];
      assert events[..|events| - 1] == old(events);
      if silentDepth == 0 {
        parts := parts + [text];
      }
    }

    method Text() returns (r: string)
      requires Valid()
      ensures r == Collapse(Concat(Parts(events)))
    {
      var lines := StripAll(SplitLines(Concat(parts)));
      var kept: seq<string> := [];
      for i := 0 to |lines|
        invariant kept == Kept(lines[..i])
      {
        assert lines[..i + 1][..i] == lines[..i];
        if lines[i] != "" || (kept != [] && kept[|kept| - 1] != "") {
          kept := kept + [lines[i]];
        }
      }
      assert lines[..|lines|] == lines;
      r := Strip(JoinLines(kept));
    }
  }

  /** The counter after a stream. */
  function Depth(events: seq<Event>): nat {
    if events == [] then 0 else
      var depth := Depth(events[..|events| - 1]);
      match events[|events| - 1]
      case Start(tag) => if tag in SILENT then depth + 1 else depth
      case End(tag) => if tag in SILENT && depth > 0 then depth - 1 else depth
      case Data(_) => depth
  }

  /** The parts kept of a stream. */
  function Parts(events: seq<Event>): seq<string> {
    if events == [] then [] else
      var front := events[..|events| - 1];
      Parts(front) + Added(Depth(front), events[|events| - 1])
  }

  function Added(depth: nat, event: Event): seq<string> {
    match event
    case Start(tag) => if tag !in SILENT && tag in BREAKS then ["\n"] else []
    case End(tag) => if tag !in SILENT && tag in BREAKS then ["\n"] else []
    case Data(text) => if depth == 0 then [text] else []
  }

  datatype Nesting = Broken | Open(stack: seq<string>, voids: nat)

  /** What is open after a stream: the silent elements with content, outermost first, and
      how many `meta` and `link` tags were never closed. `Broken` when an end tag of a silent
      element does not close the innermost one. Other tags may come in any order. */
  function OpenSilent(events: seq<Event>): Nesting {
    if events == [] then Open([], 0) else Nest(OpenSilent(events[..|events| - 1]), events[|events| - 1])
  }

  function Nest(n: Nesting, event: Event): Nesting {
    match n
    case Broken => Broken
    case Open(stack, voids) =>
      match event
      case Start(tag) =>
        if tag in VOID then Open(stack, voids + 1)
        else if tag in SILENT then Open(stack + [tag], voids)
        else n
      case End(tag) =>
        if tag in VOID then (if voids > 0 then Open(stack, voids - 1) else Broken)
        else if tag !in SILENT then n
        else if stack != [] && stack[|stack| - 1] == tag then Open(stack[..|stack| - 1], voids)
        else Broken
      case Data(_) => n
  }

  predicate IsVisible(n: Nesting, event: Event) {
    n.Open? && n.stack == [] && event.Data?
  }

  /** The text outside silent elements, by the stack. */
  function Visible(events: seq<Event>): string {
    if events == [] then "" else
      var front, last := events[..|events| - 1], events[|events| - 1];
      Visible(front) + if IsVisible(OpenSilent(front), last) then last.text else ""
  }

  /** The visible text that no unclosed `meta` or `link` precedes. */
  function Heard(events: seq<Event>): string {
    if events == [] then "" else
      var front, last := events[..|events| - 1], events[|events| - 1];
      Heard(front) + HeardOf(OpenSilent(front), last)
  }

  function HeardOf(n: Nesting, event: Event): string {
    if IsVisible(n, event) && n.voids == 0 then event.text else ""
  }

  /** The visible characters, whitespace aside, that follow an unclosed `meta` or `link`. */
  function Lost(events: seq<Event>): string {
    if events == [] then "" else
      var front, last := events[..|events| - 1], events[|events| - 1];
      Lost(front) + if IsVisible(OpenSilent(front), last) && OpenSilent(front).voids > 0 then NonSpace(last.text) else ""
  }

  /** The counter is the height of the stack, plus the tags that were never closed. */
  lemma {:induction false} DepthIsStackHeight(events: seq<Event>)
    requires OpenSilent(events).Open?
    ensures Depth(events) == |OpenSilent(events).stack| + OpenSilent(events).voids
  {
    if events != [] {
      DepthIsStackHeight(events[..|events| - 1]);
    }
  }

  // ---- Characters that are not whitespace.

  function NonSpace(s: string): string {
    if s == "" then "" else NonSpace(s[..|s| - 1]) + if IsSpace(s[|s| - 1]) then "" else [s[|s| - 1]]
  }

  function Concat(parts: seq<string>): string {
    if parts == [] then "" else Concat(parts[..|parts| - 1]) + parts[|parts| - 1]
  }

  function NonSpaceOf(lines: seq<string>): string {
    if lines == [] then "" else NonSpaceOf(lines[..|lines| - 1]) + NonSpace(lines[|lines| - 1])
  }

  lemma {:induction false} NonSpaceConcat(s: string, t: string)
    ensures NonSpace(s + t) == NonSpace(s) + NonSpace(t)
  {
    if t == "" {
      assert s + t == s;
    } else {
      NonSpaceConcat(s, t[..|t| - 1]);
      assert (s + t)[..|s + t| - 1] == s + t[..|t| - 1];
    }
  }

  lemma Regroup<T>(a: seq<T>, b: seq<T>, c: seq<T>)
    ensures (a + b) + c == a + (b + c)
  {
  }

  lemma {:induction false} NonSpaceOfCons(line: string, lines: seq<string>)
    ensures NonSpaceOf([line] + lines) == NonSpace(line) + NonSpaceOf(lines)
  {
    if lines == [] {
      assert [line] + lines == [line] && [line][..0] == [];
    } else {
      var n := |lines| - 1;
      NonSpaceOfCons(line, lines[..n]);
      assert ([line] + lines)[..n + 1] == [line] + lines[..n];
      Regroup(NonSpace(line), NonSpaceOf(lines[..n]), NonSpace(lines[n]));
    }
  }

  lemma {:induction false} StripKeepsNonSpace(s: string)
    ensures NonSpace(StripRight(s)) == NonSpace(s) && NonSpace(StripLeft(s)) == NonSpace(s)
    decreases |s|
  {
    if s != "" {
      StripKeepsNonSpace(s[..|s| - 1]);
      StripKeepsNonSpace(s[1..]);
      NonSpaceConcat([s[0]], s[1..]);
      assert [s[0]] + s[1..] == s;
      assert [s[0]][..0] == "";
    }
  }

  ghost predicate Sounds(parts: seq<string>, text: string) {
    NonSpace(Concat(parts)) == NonSpace(text)
  }

  /** What the counter keeps is, whitespace aside, what is heard. */
  lemma {:induction false} PartsAreHeard(events: seq<Event>)
    requires OpenSilent(events).Open?
    ensures Sounds(Parts(events), Heard(events))
  {
    if events != [] {
      var front, last := events[..|events| - 1], events[|events| - 1];
      PartsAreHeard(front);
      DepthIsStackHeight(front);
      AddedIsHeard(OpenSilent(front), last);
      SoundsOn(Parts(front), Heard(front), Added(Depth(front), last), HeardOf(OpenSilent(front), last));
    }
  }

  lemma SoundsOn(parts: seq<string>, text: string, added: seq<string>, more: string)
    requires Sounds(parts, text) && Sounds(added, more) && |added| <= 1
    ensures Sounds(parts + added, text + more)
  {
    NonSpaceConcatParts(parts, added);
    NonSpaceConcat(text, more);
  }

  lemma AddedIsHeard(n: Nesting, event: Event)
    requires n.Open?
    ensures |Added(|n.stack| + n.voids, event)| <= 1
    ensures Sounds(Added(|n.stack| + n.voids, event), HeardOf(n, event))
  {
    BreaksAreSpace("\n");
    var added := Added(|n.stack| + n.voids, event);
    if added != [] {
      ConcatOfOne(added[0]);
    }
  }

  lemma ConcatOfOne(part: string)
    ensures Concat([part]) == part
  {
    assert [part][..0] == [] && "" + part == part;
  }

  /** What is visible and not heard is lost. */
  lemma {:induction false} VisibleIsHeardOrLost(events: seq<Event>)
    ensures |NonSpace(Visible(events))| == |NonSpace(Heard(events))| + |Lost(events)|
    ensures Lost(events) == "" ==> NonSpace(Visible(events)) == NonSpace(Heard(events))
  {
    if events != [] {
      var front, last := events[..|events| - 1], events[|events| - 1];
      VisibleIsHeardOrLost(front);
      var n := OpenSilent(front);
      NonSpaceConcat(Visible(front), if IsVisible(n, last) then last.text else "");
      NonSpaceConcat(Heard(front), HeardOf(n, last));
    }
  }

  lemma NonSpaceConcatParts(parts: seq<string>, added: seq<string>)
    requires |added| <= 1
    ensures NonSpace(Concat(parts + added)) == NonSpace(Concat(parts)) + NonSpace(Concat(added))
  {
    if added == [] {
      assert parts + added == parts && Concat(added) == "" && NonSpace("") == "";
      assert NonSpace(Concat(parts)) + "" == NonSpace(Concat(parts));
    } else {
      ConcatOfOne(added[0]);
      assert (parts + added)[..|parts|] == parts;
      NonSpaceConcat(Concat(parts), added[0]);
    }
  }

  // ---- Lines.

  /** The characters `splitlines` breaks at. */
  predicate IsBreak(c: char) {
    || '\n' <= c <= '\r' || '\U{1c}' <= c <= '\U{1e}'
    || c == '\U{85}' || c == '\U{2028}' || c == '\U{2029}'
  }

  /** Where the first line of `s` ends. */
  function LineEnd(s: string): (n: nat)
    ensures n <= |s| && (n < |s| ==> IsBreak(s[n]))
    ensures forall i :: 0 <= i < n ==> !IsBreak(s[i])
  {
    if s == "" || IsBreak(s[0]) then 0 else 1 + LineEnd(s[1..])
  }

  /** What follows the line break at `n`; a carriage return takes its line feed along. */
  function AfterBreak(s: string, n: nat): string
    requires n < |s|
  {
    if s[n] == '\r' && n + 1 < |s| && s[n + 1] == '\n' then s[n + 2..] else s[n + 1..]
  }

  /** `s.splitlines()`. */
  function SplitLines(s: string): seq<string>
    decreases |s|
  {
    if s == "" then [] else
      var n := LineEnd(s);
      if n == |s| then [s] else [s[..n]] + SplitLines(AfterBreak(s, n))
  }

  function StripAll(lines: seq<string>): (r: seq<string>)
    ensures |r| == |lines| && forall i :: 0 <= i < |lines| ==> r[i] == Strip(lines[i])
  {
    seq(|lines|, i requires 0 <= i < |lines| => Strip(lines[i]))
  }

  /** The loop of `text`: blank lines at the start and after a blank line go. */
  function Kept(lines: seq<string>): seq<string> {
    if lines == [] then [] else
      var kept, line := Kept(lines[..|lines| - 1]), lines[|lines| - 1];
      if line != "" || (kept != [] && kept[|kept| - 1] != "") then kept + [line] else kept
  }

  function JoinLines(lines: seq<string>): string {
    if lines == [] then "" else
      var last := lines[|lines| - 1];
      if |lines| == 1 then last else JoinLines(lines[..|lines| - 1]) + "\n" + last
  }

  /** What `text` does to the joined parts. */
  function Collapse(s: string): string {
    Strip(JoinLines(Kept(StripAll(SplitLines(s)))))
  }

  lemma {:induction false} SplitKeepsNonSpace(s: string)
    ensures NonSpaceOf(SplitLines(s)) == NonSpace(s)
    decreases |s|
  {
    if s != "" {
      var n := LineEnd(s);
      if n == |s| {
        NonSpaceOfCons(s, []);
      } else {
        SplitKeepsNonSpace(AfterBreak(s, n));
        NonSpaceOfCons(s[..n], SplitLines(AfterBreak(s, n)));
        BreakIsSpace(s, n);
      }
    }
  }

  /** Taking out a line break takes out whitespace only. */
  lemma BreakIsSpace(s: string, n: nat)
    requires n < |s| && IsBreak(s[n])
    ensures NonSpace(s) == NonSpace(s[..n]) + NonSpace(AfterBreak(s, n))
  {
    var gap := CutAtBreak(s, n);
    BreaksAreSpace(gap);
    NonSpaceWithout(s[..n], gap, AfterBreak(s, n));
  }

  lemma CutAtBreak(s: string, n: nat) returns (gap: string)
    requires n < |s| && IsBreak(s[n])
    ensures s == s[..n] + gap + AfterBreak(s, n)
    ensures forall i :: 0 <= i < |gap| ==> IsBreak(gap[i])
  {
    gap := if s[n] == '\r' && n + 1 < |s| && s[n + 1] == '\n' then [s[n], s[n + 1]] else [s[n]];
  }

  lemma NonSpaceWithout(a: string, gap: string, b: string)
    requires NonSpace(gap) == ""
    ensures NonSpace(a + gap + b) == NonSpace(a) + NonSpace(b)
  {
    NonSpaceConcat(a, gap);
    NonSpaceConcat(a + gap, b);
    assert NonSpace(a) + "" == NonSpace(a);
  }

  lemma {:induction false} BreaksAreSpace(gap: string)
    requires forall i :: 0 <= i < |gap| ==> IsBreak(gap[i])
    ensures NonSpace(gap) == ""
  {
    if gap != "" {
      BreaksAreSpace(gap[..|gap| - 1]);
    }
  }

  /** Where the first line of a text ends does not depend on what follows its first break. */
  lemma {:induction false} LineEndIsFirst(head: string, after: string)
    requires LineEnd(head) < |head|
    ensures LineEnd(head + after) == LineEnd(head)
  {
    if !IsBreak(head[0]) {
      assert (head + after)[1..] == head[1..] + after;
      LineEndIsFirst(head[1..], after);
    }
  }

  /** A break right before a line feed takes it along only if it is a carriage return. */
  lemma {:induction false} LineEndsByFeed(before: string)
    ensures LineEnd(before + "\n") <= |before|
  {
    if before != "" && !IsBreak(before[0]) {
      assert (before + "\n")[1..] == before[1..] + "\n";
      LineEndsByFeed(before[1..]);
    }
  }

  /** Nothing that a line feed separates comes to stand on one line. */
  lemma {:induction false} SplitAtLineFeed(before: string, after: string)
    ensures SplitLines((before + "\n") + after) == SplitLines(before + "\n") + SplitLines(after)
    decreases |before|
  {
    var head := before + "\n";
    var n := LineEnd(head);
    LineEndsByFeed(before);
    LineEndIsFirst(head, after);
    var m := BreakEnds(before, after, n);
    if m == |head| {
      assert SplitLines(after) == SplitLines("") + SplitLines(after);
      SplitStep(head, after, n, "", after, SplitLines(after));
    } else {
      SplitAtLineFeed(before[m..], after);
      SplitStep(head, after, n, before[m..] + "\n", (before[m..] + "\n") + after, SplitLines(after));
    }
  }

  lemma SplitStep(head: string, after: string, n: nat, rest: string, all: string, tail: seq<string>)
    requires n < |head| && LineEnd(head) == n && LineEnd(head + after) == n
    requires AfterBreak(head, n) == rest && AfterBreak(head + after, n) == all
    requires SplitLines(all) == SplitLines(rest) + tail
    ensures SplitLines(head + after) == SplitLines(head) + tail
  {
    FirstLine(head, n, rest);
    FirstLine(head + after, n, all);
    assert (head + after)[..n] == head[..n];
    Regroup([head[..n]], SplitLines(rest), tail);
  }

  lemma FirstLine(s: string, n: nat, rest: string)
    requires n < |s| && LineEnd(s) == n && AfterBreak(s, n) == rest
    ensures SplitLines(s) == [s[..n]] + SplitLines(rest)
  {
  }

  /** The break that ends the first line does not reach past the line feed. */
  lemma BreakEnds(before: string, after: string, n: nat) returns (m: nat)
    requires n <= |before| && IsBreak((before + "\n")[n])
    ensures n < m <= |before| + 1
    ensures m == |before| + 1 ==> AfterBreak(before + "\n", n) == "" && AfterBreak((before + "\n") + after, n) == after
    ensures m <= |before| ==> AfterBreak(before + "\n", n) == before[m..] + "\n"
    ensures m <= |before| ==> AfterBreak((before + "\n") + after, n) == (before[m..] + "\n") + after
  {
    var head := before + "\n";
    var s := head + after;
    m := if head[n] == '\r' && n + 1 < |head| && head[n + 1] == '\n' then n + 2 else n + 1;
    assert s[n] == head[n] && (n + 1 < |head| ==> s[n + 1] == head[n + 1]);
    assert n + 1 < |head| || head[n] == '\n';
    assert AfterBreak(head, n) == head[m..] && AfterBreak(s, n) == s[m..];
    if m <= |before| {
      assert head[m..] == before[m..] + "\n";
    }
  }

  /** A break tag, opened or closed, in silent elements or outside, parts what is kept before
      it from what is kept after it: no line of the text spans it. */
  lemma BreakTagsSeparate(before: seq<Event>, e: Event, after: seq<Event>) returns (rest: seq<string>)
    requires (e.Start? || e.End?) && e.tag in BREAKS
    ensures var parts := Parts(before + [e] + after);
            && parts == Parts(before) + ["\n"] + rest
            && SplitLines(Concat(parts)) == SplitLines(Concat(Parts(before)) + "\n") + SplitLines(Concat(rest))
  {
    OneMore(before, e);
    NoBreakIsSilent(e.tag);
    rest := PartsGrow(before + [e], after);
    ConcatParts(Parts(before) + ["\n"], rest);
    ConcatSnoc(Parts(before), "\n");
    SplitAtLineFeed(Concat(Parts(before)), Concat(rest));
  }

  lemma NoBreakIsSilent(tag: string)
    requires tag in BREAKS
    ensures tag !in SILENT
  {
  }

  lemma {:induction false} PartsGrow(events: seq<Event>, after: seq<Event>) returns (rest: seq<string>)
    ensures Parts(events + after) == Parts(events) + rest
  {
    rest := [];
    if after == [] {
      assert events + after == events;
    } else {
      var n := |after| - 1;
      rest := PartsGrow(events, after[..n]);
      OneMore(events + after[..n], after[n]);
      assert after[..n] + [after[n]] == after;
      Regroup(events, after[..n], [after[n]]);
      Regroup(Parts(events), rest, Added(Depth(events + after[..n]), after[n]));
      rest := rest + Added(Depth(events + after[..n]), after[n]);
    }
  }

  lemma {:induction false} ConcatParts(parts: seq<string>, rest: seq<string>)
    ensures Concat(parts + rest) == Concat(parts) + Concat(rest)
  {
    if rest == [] {
      assert parts + rest == parts;
    } else {
      var front, last := rest[..|rest| - 1], rest[|rest| - 1];
      ConcatParts(parts, front);
      ConcatSnoc(parts + front, last);
      Regroup(parts, front, [last]);
      Regroup(Concat(parts), Concat(front), last);
      assert front + [last] == rest;
    }
  }

  // ---- What is kept, event by event.

  /** A break tag always, and text exactly outside silent elements, by the counter. */
  ghost predicate IsKept(events: seq<Event>, k: nat)
    requires k < |events|
  {
    if events[k].Data? then Depth(events[..k]) == 0 else events[k].tag in BREAKS
  }

  function PartOf(event: Event): string {
    if event.Data? then event.text else "\n"
  }

  /** Part i comes from event `at[i]`, the positions increase, and they are those below `n` of
      the events that leave something. */
  ghost predicate AreParts(events: seq<Event>, n: nat, at: seq<nat>, parts: seq<string>)
    requires n <= |events|
  {
    && |at| == |parts|
    && (forall i, j :: 0 <= i < j < |at| ==> at[i] < at[j])
    && (forall k: nat :: k in at <==> k < n && IsKept(events, k))
    && (forall i :: 0 <= i < |at| ==> at[i] < n && parts[i] == PartOf(events[at[i]]))
  }

  /** The parts are those of the kept events, in order, each once. */
  lemma {:induction false} PartsInOrder(events: seq<Event>, n: nat) returns (at: seq<nat>)
    requires n <= |events|
    ensures AreParts(events, n, at, Parts(events[..n]))
  {
    at := [];
    if n > 0 {
      at := PartsInOrder(events, n - 1);
      AddedIs(events, n - 1);
      if IsKept(events, n - 1) {
        at := at + [n - 1];
      }
    }
  }

  lemma AddedIs(events: seq<Event>, n: nat)
    requires n < |events|
    ensures Parts(events[..n + 1]) == Parts(events[..n]) + if IsKept(events, n) then [PartOf(events[n])] else []
  {
    assert events[..n] + [events[n]] == events[..n + 1];
    OneMore(events[..n], events[n]);
    if !events[n].Data? && events[n].tag in BREAKS {
      NoBreakIsSilent(events[n].tag);
    }
  }

  lemma ConcatSnoc(parts: seq<string>, part: string)
    ensures Concat(parts + [part]) == Concat(parts) + part
  {
    assert (parts + [part])[..|parts|] == parts;
  }

  lemma {:induction false} StripAllKeepsNonSpace(lines: seq<string>)
    ensures NonSpaceOf(StripAll(lines)) == NonSpaceOf(lines)
  {
    if lines != [] {
      var n := |lines| - 1;
      StripAllKeepsNonSpace(lines[..n]);
      assert StripAll(lines)[..n] == StripAll(lines[..n]);
      StripKeepsNonSpace(lines[n]);
      StripKeepsNonSpace(StripLeft(lines[n]));
    }
  }

  lemma {:induction false} KeptKeepsNonSpace(lines: seq<string>)
    ensures NonSpaceOf(Kept(lines)) == NonSpaceOf(lines)
  {
    if lines != [] {
      KeptKeepsNonSpace(lines[..|lines| - 1]);
      var kept, line := Kept(lines[..|lines| - 1]), lines[|lines| - 1];
      assert (kept + [line])[..|kept|] == kept;
    }
  }

  lemma {:induction false} JoinKeepsNonSpace(lines: seq<string>)
    ensures NonSpace(JoinLines(lines)) == NonSpaceOf(lines)
  {
    if |lines| == 1 {
      assert lines[..0] == [];
    } else if lines != [] {
      var front, last := lines[..|lines| - 1], lines[|lines| - 1];
      JoinKeepsNonSpace(front);
      NonSpaceConcat(JoinLines(front) + "\n", last);
      NonSpaceConcat(JoinLines(front), "\n");
      BreaksAreSpace("\n");
    }
  }

  /** The collapse neither loses, adds nor reorders a character that is not whitespace. */
  lemma CollapseKeepsNonSpace(s: string)
    ensures NonSpace(Collapse(s)) == NonSpace(s)
  {
    var lines := StripAll(SplitLines(s));
    var joined := JoinLines(Kept(lines));
    StripKeepsNonSpace(joined);
    StripKeepsNonSpace(StripLeft(joined));
    JoinKeepsNonSpace(Kept(lines));
    KeptKeepsNonSpace(lines);
    StripAllKeepsNonSpace(SplitLines(s));
    SplitKeepsNonSpace(s);
  }

  /** Where silent elements are properly nested, the text holds, whitespace aside, exactly
      the characters outside them, in order, if and only if none of those characters
      follows an unclosed `meta` or `link`. */
  lemma TextIsVisible(events: seq<Event>)
    requires OpenSilent(events).Open?
    ensures NonSpace(Collapse(Concat(Parts(events)))) == NonSpace(Visible(events)) <==> Lost(events) == ""
    ensures NonSpace(Collapse(Concat(Parts(events)))) == NonSpace(Heard(events))
  {
    CollapseKeepsNonSpace(Concat(Parts(events)));
    PartsAreHeard(events);
    VisibleIsHeardOrLost(events);
  }

  /** After an unclosed `meta` or `link`, visible text leaves no part behind. */
  lemma UnclosedSilences(front: seq<Event>, text: string)
    requires OpenSilent(front).Open? && OpenSilent(front).stack == [] && OpenSilent(front).voids > 0
    ensures Visible(front + [Data(text)]) == Visible(front) + text
    ensures Parts(front + [Data(text)]) == Parts(front)
  {
    OneMore(front, Data(text));
    DepthIsStackHeight(front);
  }

  /** And such streams are ordinary: a head, say, with one `meta` tag between its own two. */
  lemma ClosedAroundVoid(tag: string, void: string)
    requires tag in SILENT && tag !in VOID && void in VOID
    ensures var events := [] + [Start(tag)] + [Start(void)] + [End(tag)];
            OpenSilent(events) == Open([], 1) && Depth(events) == 1
  {
    OneMore([], Start(tag));
    OneMore([] + [Start(tag)], Start(void));
    OneMore([] + [Start(tag)] + [Start(void)], End(tag));
    DepthIsStackHeight([] + [Start(tag)] + [Start(void)] + [End(tag)]);
  }

  predicate ClosesVoid(event: Event) {
    event.End? && event.tag in VOID
  }

  /** What an unclosed `meta` or `link` silences stays silent however the stream goes on, as
      long as no such tag is closed: nothing more is heard. */
  lemma {:induction false} SilentUntilClosed(front: seq<Event>, rest: seq<Event>)
    requires OpenSilent(front + rest).Open?
    requires forall i :: 0 <= i < |rest| ==> !ClosesVoid(rest[i])
    ensures OpenSilent(front).Open? && OpenSilent(front + rest).voids >= OpenSilent(front).voids
    ensures OpenSilent(front).voids > 0 ==> Heard(front + rest) == Heard(front) && Depth(front + rest) > 0
  {
    if rest == [] {
      assert front + rest == front;
    } else {
      var before, last := rest[..|rest| - 1], rest[|rest| - 1];
      assert front + rest == front + before + [last];
      OneMore(front + before, last);
      SilentUntilClosed(front, before);
    }
    DepthIsStackHeight(front + rest);
  }

  lemma OneMore(front: seq<Event>, last: Event)
    ensures OpenSilent(front + [last]) == Nest(OpenSilent(front), last)
    ensures Parts(front + [last]) == Parts(front) + Added(Depth(front), last)
    ensures Visible(front + [last]) == Visible(front) + if IsVisible(OpenSilent(front), last) then last.text else ""
    ensures Heard(front + [last]) == Heard(front) + HeardOf(OpenSilent(front), last)
  {
    var events := front + [last];
    assert events[..|events| - 1] == front && events[|events| - 1] == last;
  }

  // ---- Collapsed text is collapsed.

  /** Lines without breaks or outer whitespace. */
  ghost predicate Clean(lines: seq<string>) {
    forall i :: 0 <= i < |lines| ==> IsClean(lines[i])
  }

  ghost predicate IsClean(line: string) {
    && (forall k :: 0 <= k < |line| ==> !IsBreak(line[k]))
    && (line != "" ==> !IsSpace(line[0]) && !IsSpace(line[|line| - 1]))
  }

  ghost predicate NoBlankPairs(lines: seq<string>) {
    forall i, j :: 0 <= i < |lines| && j == i + 1 < |lines| ==> lines[i] != "" || lines[j] != ""
  }

  /** The lines of a collapsed text: clean, no two blanks together, none at either end. */
  ghost predicate Collapsed(lines: seq<string>) {
    && Clean(lines) && NoBlankPairs(lines)
    && (lines != [] ==> lines[0] != "" && lines[|lines| - 1] != "")
  }

  lemma {:induction false} SplitHasNoBreaks(s: string)
    ensures forall i, k :: 0 <= i < |SplitLines(s)| && 0 <= k < |SplitLines(s)[i]| ==> !IsBreak(SplitLines(s)[i][k])
    decreases |s|
  {
    if s != "" {
      var n := LineEnd(s);
      if n < |s| {
        SplitHasNoBreaks(AfterBreak(s, n));
      }
    }
  }

  lemma {:induction false} StripLeftIsSuffix(s: string) returns (n: nat)
    ensures n <= |s| && StripLeft(s) == s[n..]
    ensures StripLeft(s) != "" ==> !IsSpace(StripLeft(s)[0])
  {
    n := 0;
    if s != "" && IsSpace(s[0]) {
      n := StripLeftIsSuffix(s[1..]);
      n := n + 1;
    }
  }

  lemma {:induction false} StripRightIsPrefix(s: string) returns (n: nat)
    ensures n <= |s| && StripRight(s) == s[..n]
    ensures StripRight(s) != "" ==> !IsSpace(StripRight(s)[n - 1])
    ensures s != "" && !IsSpace(s[0]) ==> n > 0
  {
    n := |s|;
    if s != "" && IsSpace(s[|s| - 1]) {
      n := StripRightIsPrefix(s[..|s| - 1]);
    }
  }

  lemma StripIsClean(s: string)
    requires forall k :: 0 <= k < |s| ==> !IsBreak(s[k])
    ensures IsClean(Strip(s))
  {
    var n := StripLeftIsSuffix(s);
    var m := StripRightIsPrefix(StripLeft(s));
    assert Strip(s) == s[n..][..m];
  }

  /** Text that has no outer whitespace is left alone. */
  lemma StripOfTrimmed(s: string)
    requires s != "" ==> !IsSpace(s[0]) && !IsSpace(s[|s| - 1])
    ensures Strip(s) == s
  {
  }

  lemma {:induction false} KeptIsOrderly(lines: seq<string>)
    requires Clean(lines)
    ensures Clean(Kept(lines)) && NoBlankPairs(Kept(lines))
    ensures Kept(lines) != [] ==> Kept(lines)[0] != ""
  {
    if lines != [] {
      var front, last := lines[..|lines| - 1], lines[|lines| - 1];
      KeptIsOrderly(front);
      assert IsClean(last);
      if last != "" || (Kept(front) != [] && Kept(front)[|Kept(front)| - 1] != "") {
        StillOrderly(Kept(front), last);
      }
    }
  }

  lemma StillOrderly(kept: seq<string>, last: string)
    requires Clean(kept) && IsClean(last) && NoBlankPairs(kept)
    requires last != "" || (kept != [] && kept[|kept| - 1] != "")
    requires kept != [] ==> kept[0] != ""
    ensures Clean(kept + [last]) && NoBlankPairs(kept + [last]) && (kept + [last])[0] != ""
  {
  }

  lemma {:induction false} JoinEnds(lines: seq<string>)
    requires lines != [] && lines[0] != ""
    ensures JoinLines(lines) != "" && JoinLines(lines)[0] == lines[0][0]
    ensures var j, last := JoinLines(lines), lines[|lines| - 1];
            last != "" ==> j[|j| - 1] == last[|last| - 1]
  {
    if |lines| > 1 {
      JoinEnds(lines[..|lines| - 1]);
    }
  }

  /** Without its trailing blank line. */
  function DropLastBlank(lines: seq<string>): seq<string> {
    if lines != [] && lines[|lines| - 1] == "" then lines[..|lines| - 1] else lines
  }

  /** The last strip takes off a trailing blank line and nothing else. */
  lemma StripDropsLastBlank(lines: seq<string>)
    requires Clean(lines) && NoBlankPairs(lines) && (lines != [] ==> lines[0] != "")
    ensures Collapsed(DropLastBlank(lines)) && Strip(JoinLines(lines)) == JoinLines(DropLastBlank(lines))
  {
    if lines != [] {
      var n := |lines| - 1;
      JoinEnds(lines);
      assert IsClean(lines[0]) && IsClean(lines[n]);
      assert n > 0 ==> IsClean(lines[n - 1]) && (lines[n - 1] != "" || lines[n] != "");
      if lines[n] != "" {
        StripOfTrimmed(JoinLines(lines));
      } else {
        var front := lines[..n];
        JoinEnds(front);
        var j := JoinLines(front);
        assert JoinLines(lines) == j + "\n";
        assert (j + "\n")[..|j|] == j;
        assert StripLeft(j + "\n") == j + "\n" && StripRight(j + "\n") == StripRight(j) == j;
      }
    }
  }

  /** Splitting undoes joining, for lines without breaks of which the last is not blank. */
  lemma {:induction false} SplitOfJoin(lines: seq<string>)
    requires forall i, k :: 0 <= i < |lines| && 0 <= k < |lines[i]| ==> !IsBreak(lines[i][k])
    requires lines != [] ==> lines[|lines| - 1] != ""
    ensures SplitLines(JoinLines(lines)) == lines
  {
    if |lines| == 1 {
      assert LineEnd(lines[0]) == |lines[0]|;
    } else if |lines| > 1 {
      JoinFromFront(lines);
      SplitOfJoin(lines[1..]);
      SplitFirst(lines[0], JoinLines(lines[1..]));
      assert lines == [lines[0]] + lines[1..];
    }
  }

  lemma SplitFirst(first: string, rest: string)
    requires forall k :: 0 <= k < |first| ==> !IsBreak(first[k])
    ensures SplitLines(first + "\n" + rest) == [first] + SplitLines(rest)
  {
    var s := first + "\n" + rest;
    assert s[|first|] == '\n' && IsBreak(s[|first|]);
    assert forall i :: 0 <= i < |first| ==> s[i] == first[i];
    assert LineEnd(s) == |first|;
    assert AfterBreak(s, |first|) == rest && s[..|first|] == first;
  }

  lemma {:induction false} JoinFromFront(lines: seq<string>)
    requires |lines| > 1
    ensures JoinLines(lines) == lines[0] + "\n" + JoinLines(lines[1..])
  {
    var n := |lines| - 1;
    if n > 1 {
      JoinFromFront(lines[..n]);
      assert lines[..n][1..] == lines[1..][..n - 1];
      assert lines[0] + "\n" + JoinLines(lines[1..n]) + "\n" + lines[n]
          == lines[0] + "\n" + (JoinLines(lines[1..n]) + "\n" + lines[n]);
      assert lines[1..][..n - 1] == lines[1..n];
    } else {
      assert lines[..1][..0] == [] && lines[..1] == [lines[0]] && lines[1..] == [lines[1]];
    }
  }

  lemma {:induction false} KeptOfCollapsed(lines: seq<string>)
    requires NoBlankPairs(lines) && (lines != [] ==> lines[0] != "")
    ensures Kept(lines) == lines
  {
    if lines != [] {
      var front, last := lines[..|lines| - 1], lines[|lines| - 1];
      KeptOfCollapsed(front);
      assert front != [] ==> front[|front| - 1] == lines[|lines| - 2];
      KeptSnoc(front, last);
      assert front + [last] == lines;
    }
  }

  lemma KeptSnoc(front: seq<string>, last: string)
    requires Kept(front) == front
    requires last != "" || (front != [] && front[|front| - 1] != "")
    ensures Kept(front + [last]) == front + [last]
  {
    assert (front + [last])[..|front|] == front;
  }

  /** The lines of a collapsed text have no two blanks together, and none at either end. */
  lemma CollapseLeavesNoBlankPairs(s: string)
    ensures Collapsed(SplitLines(Collapse(s))) && JoinLines(SplitLines(Collapse(s))) == Collapse(s)
  {
    var lines := StripAll(SplitLines(s));
    SplitHasNoBreaks(s);
    forall i | 0 <= i < |lines|
      ensures IsClean(lines[i])
    {
      StripIsClean(SplitLines(s)[i]);
    }
    KeptIsOrderly(lines);
    StripDropsLastBlank(Kept(lines));
    var final := DropLastBlank(Kept(lines));
    forall i, k | 0 <= i < |final| && 0 <= k < |final[i]|
      ensures !IsBreak(final[i][k])
    {
      assert IsClean(final[i]);
    }
    SplitOfJoin(final);
  }

  /** Collapsing twice is collapsing once. */
  lemma CollapseIsIdempotent(s: string)
    ensures Collapse(Collapse(s)) == Collapse(s)
  {
    CollapseLeavesNoBlankPairs(s);
    var lines := SplitLines(Collapse(s));
    StripAllOfClean(lines);
    KeptOfCollapsed(lines);
    StripDropsLastBlank(lines);
  }

  lemma StripAllOfClean(lines: seq<string>)
    requires Clean(lines)
    ensures StripAll(lines) == lines
  {
    forall i | 0 <= i < |lines|
      ensures Strip(lines[i]) == lines[i]
    {
      assert IsClean(lines[i]);
      StripOfTrimmed(lines[i]);
    }
  }
}
