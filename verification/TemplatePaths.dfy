/** The `forEach` path of a message template (send_message_template_service.py). */
module TemplatePaths {
  import opened PyText

  /** One segment of the path: the name it steps to, and whether it ends in `[*]`. */
  datatype Segment = Segment(name: string, each: bool)

  predicate IsDot(c: char) { c == '.' }

  /** The parts of `raw.split(".")` that are not empty. */
  function SplitDots(s: string, buffer: string): seq<string> {
    if s == [] then (if buffer == [] then [] else [buffer])
    else if s[0] == '.' then (if buffer == [] then [] else [buffer]) + SplitDots(s[1..], [])
    else SplitDots(s[1..], buffer + [s[0]])
  }

  /** `_segment_parts`. */
  function SegmentParts(raw: string): Segment {
    var s := Strip(raw);
    if |s| >= 3 && s[|s| - 3..] == "[*]" then Segment(s[..|s| - 3], true) else Segment(s, false)
  }

  function Parts(raws: seq<string>): seq<Segment> {
    seq(|raws|, i requires 0 <= i < |raws| => SegmentParts(raws[i]))
  }

  /** `_normalize_template_path`, with `_segment_parts` applied to each segment. */
  function TemplatePath(value: string): seq<Segment> {
    var raw := Strip(value);
    if raw == [] || raw == "$" then []
    else
      var below := if |raw| >= 2 && raw[0] == '$' && raw[1] == '.' then raw[2..]
                   else if raw[0] == '$' then raw[1..] else raw;
      Parts(SplitDots(Trim(below, IsDot), []))
  }

  // ---- canonical texts --------------------------------------------------------------------------

  predicate NoDots(s: string) { forall i | 0 <= i < |s| :: s[i] != '.' }

  predicate EndsInStar(s: string) { |s| >= 3 && s[|s| - 3..] == "[*]" }

  /** A segment that can be written down: without dots, without spaces around the name, and not mistaken
      for a `[*]` step. */
  predicate Writable(s: Segment) {
    && NoDots(s.name) && Strip(s.name) == s.name
    && (!s.each ==> s.name != [] && !EndsInStar(s.name))
  }

  function SegmentText(s: Segment): string { s.name + if s.each then "[*]" else "" }

  function Dotted(path: seq<Segment>): string {
    if path == [] then ""
    else if |path| == 1 then SegmentText(path[0])
    else SegmentText(path[0]) + "." + Dotted(path[1..])
  }

  /** `$.a.b[*].c`. */
  function ForEachText(path: seq<Segment>): string { if path == [] then "$" else "$." + Dotted(path) }

  function Texts(path: seq<Segment>): seq<string> {
    seq(|path|, i requires 0 <= i < |path| => SegmentText(path[i]))
  }

  lemma SegmentIsRead(s: Segment)
    requires Writable(s)
    ensures var t := SegmentText(s);
            && SegmentParts(t) == s && t != [] && NoDots(t)
            && !IsSpace(t[|t| - 1]) && (s.name == [] || !IsSpace(t[0]))
  {
    hide Trim;
    var t := SegmentText(s);
    if s.each {
      assert t[|t| - 3..] == "[*]" && t[..|t| - 3] == s.name;
      assert t[|t| - 1] == ']';
      assert s.name == [] ==> t[0] == '[';
    }
    assert s.name != [] ==> t[0] == s.name[0];
    StripKeeps(t);
  }

  lemma {:induction false} SplitRun(s: string, rest: string, buffer: string)
    requires NoDots(s)
    ensures SplitDots(s + rest, buffer) == SplitDots(rest, buffer + s)
    decreases |s|
  {
    if s == [] {
      assert s + rest == rest && buffer + s == buffer;
    } else {
      assert (s + rest)[0] == s[0] && (s + rest)[1..] == s[1..] + rest;
      assert (buffer + [s[0]]) + s[1..] == buffer + s;
      SplitRun(s[1..], rest, buffer + [s[0]]);
    }
  }

  ghost predicate AllWritable(path: seq<Segment>) { forall i | 0 <= i < |path| :: Writable(path[i]) }

  lemma {:induction false} SplitDotted(path: seq<Segment>)
    requires AllWritable(path)
    ensures SplitDots(Dotted(path), []) == Texts(path)
    decreases |path|
  {
    hide Strip, SegmentText, Writable;
    if path == [] {
    } else {
      var t := SegmentText(path[0]);
      assert Writable(path[0]);
      SegmentIsRead(path[0]);
      assert [] + t == t;
      if |path| == 1 {
        assert t + [] == t;
        SplitRun(t, [], []);
      } else {
        assert AllWritable(path[1..]);
        var rest := Dotted(path[1..]);
        assert t + "." + rest == t + ("." + rest);
        SplitRun(t, "." + rest, []);
        assert ("." + rest)[1..] == rest;
        SplitDotted(path[1..]);
        assert Texts(path) == [t] + Texts(path[1..]);
      }
    }
  }

  /** The ends of a dotted text are those of its segments. */
  lemma {:induction false} DottedEnds(path: seq<Segment>)
    requires AllWritable(path) && path != []
    ensures var d := Dotted(path);
            d != [] && d[0] != '.' && d[|d| - 1] != '.' && !IsSpace(d[|d| - 1])
    decreases |path|
  {
    hide Strip, SegmentText, Writable;
    assert Writable(path[0]);
    SegmentIsRead(path[0]);
    if |path| <= 1 {
    } else {
      assert AllWritable(path[1..]);
      DottedEnds(path[1..]);
    }
  }

  /** The parser reads the text of every path that can be written down as that path. */
  lemma TextIsRead(path: seq<Segment>)
    requires AllWritable(path)
    ensures TemplatePath(ForEachText(path)) == path
  {
    hide Strip, Trim, SegmentText, Writable, SegmentParts, SplitDots;
    if path == [] {
      StripKeeps("$");
    } else {
      var d := Dotted(path);
      DottedEnds(path);
      var text := "$." + d;
      assert text[0] == '$' && text[1] == '.' && text[2..] == d && text[|text| - 1] == d[|d| - 1];
      StripKeeps(text);
      TrimKeeps(d, IsDot);
      SplitDotted(path);
      forall i | 0 <= i < |path|
        ensures SegmentParts(Texts(path)[i]) == path[i]
      {
        SegmentIsRead(path[i]);
      }
      assert Parts(Texts(path)) == path;
    }
  }
}
