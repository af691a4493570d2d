/** DNS names on the wire, sections 3.1 and 4.1.4 of RFC 1035 (src/net/dns_message.c). */
module Dns {
  import opened Bytes

  const NAME_MAX := 255
  const LABEL_MAX := 63
  const JUMP_MAX := 16
  const DOT: u8 := 46
  const HEADER := 12

  type Text = seq<u8>

  /** A C string: no byte of it is the terminator. */
  predicate IsString(name: Text)
  {
    forall i :: 0 <= i < |name| ==> name[i] != 0
  }

  // ---- labels -------------------------------------------------------------

  function FirstDot(name: Text): (k: nat)
    ensures k <= |name| && (k < |name| ==> name[k] == DOT) && forall i :: 0 <= i < k ==> name[i] != DOT
  {
    if name == [] || name[0] == DOT then 0 else 1 + FirstDot(name[1..])
  }

  lemma {:induction false} FirstDotIs(name: Text, k: nat)
    requires k <= |name| && (k < |name| ==> name[k] == DOT) && forall i :: 0 <= i < k ==> name[i] != DOT
    ensures FirstDot(name) == k
  {
    if k > 0 {
      FirstDotIs(name[1..], k - 1);
    }
  }

  /** The labels of a dotted name; one trailing dot ends the last label without starting another. */
  function Labels(name: Text): seq<Text>
    decreases |name|
  {
    if name == [] then []
    else
      var k := FirstDot(name);
      [name[..k]] + Labels(if k < |name| then name[k + 1..] else [])
  }

  function Dotted(labels: seq<Text>): Text
  {
    if labels == [] then [] else if |labels| == 1 then labels[0] else labels[0] + [DOT] + Dotted(labels[1..])
  }

  predicate EndsInDot(name: Text)
  {
    name != [] && name[|name| - 1] == DOT
  }

  /** What follows the first label and its dot. */
  function Rest(name: Text): Text
  {
    if FirstDot(name) < |name| then name[FirstDot(name) + 1..] else []
  }

  lemma LabelsCons(name: Text)
    requires name != []
    ensures Labels(name) == [name[..FirstDot(name)]] + Labels(Rest(name))
    ensures |Rest(name)| < |name| && (Rest(name) == [] <==> Labels(Rest(name)) == [])
  {
  }

  lemma DottedCons(first: Text, rest: seq<Text>)
    ensures Dotted([first] + rest) == if rest == [] then first else first + [DOT] + Dotted(rest)
  {
    assert ([first] + rest)[1..] == rest;
  }

  lemma SplitAt(name: Text, k: nat)
    requires k < |name|
    ensures name == name[..k] + [name[k]] + name[k + 1..]
    ensures name[k + 1..] != [] ==> name[k + 1..][|name| - k - 2] == name[|name| - 1]
    ensures name[k + 1..] == [] <==> k == |name| - 1
  {
  }

  /** A name is its first label, its dot if any, and the rest. */
  lemma NameParts(name: Text)
    requires name != []
    ensures var k := FirstDot(name);
      if k < |name| then name == name[..k] + [DOT] + Rest(name) else name == name[..k] && Rest(name) == []
    ensures Rest(name) != [] ==> EndsInDot(Rest(name)) == EndsInDot(name)
    ensures Rest(name) == [] ==> EndsInDot(name) == (FirstDot(name) < |name|)
  {
    hide FirstDot;
    var k := FirstDot(name);
    if k < |name| {
      SplitAt(name, k);
    } else {
      assert name[..k] == name;
    }
  }

  /** Splitting and joining gives the name back, less a trailing dot. */
  lemma {:induction false} DottedLabels(name: Text)
    ensures Dotted(Labels(name)) == if EndsInDot(name) then name[..|name| - 1] else name
    decreases |name|
  {
    if name == [] {
      assert Labels(name) == [];
    } else {
      DottedLabelsStep(name);
    }
  }

  lemma {:induction false} DottedLabelsStep(name: Text)
    requires name != []
    ensures Dotted(Labels(name)) == if EndsInDot(name) then name[..|name| - 1] else name
    decreases |name|, 0
  {
    hide Labels, Dotted, FirstDot, Rest;
    var first, rest := name[..FirstDot(name)], Rest(name);
    LabelsCons(name);
    DottedCons(first, Labels(rest));
    NameParts(name);
    DottedLabels(rest);
    if rest != [] && EndsInDot(name) {
      assert first + [DOT] + rest[..|rest| - 1] == name[..|name| - 1];
    } else if rest == [] && EndsInDot(name) {
      assert first == name[..|name| - 1];
    }
  }

  /** The wire form: each label behind its length, a zero at the end. */
  function Wire(labels: seq<Text>): seq<u8>
    requires LabelsOk(labels)
  {
    if labels == [] then [0] else [|labels[0]|] + labels[0] + Wire(labels[1..])
  }

  predicate LabelsOk(labels: seq<Text>)
  {
    forall i :: 0 <= i < |labels| ==> 1 <= |labels[i]| <= LABEL_MAX
  }

  predicate Encodable(name: Text, limit: nat)
  {
    name != [] && LabelsOk(Labels(name)) && |Wire(Labels(name))| <= limit
  }

  /** The length of the label that starts at `index`. */
  method LabelSize(name: Text, index: nat) returns (size: nat)
    requires index < |name|
    ensures size == FirstDot(name[index..])
  {
    size := 0;
    while index + size < |name| && name[index + size] != DOT
      invariant index + size <= |name| && forall i :: index <= i < index + size ==> name[i] != DOT
    {
      size := size + 1;
    }
    FirstDotIs(name[index..], size);
  }

  lemma LabelStep(name: Text)
    requires name != []
    ensures var first := name[..FirstDot(name)];
      && (LabelsOk(Labels(name)) <==> 1 <= |first| <= LABEL_MAX && LabelsOk(Labels(Rest(name))))
      && (LabelsOk(Labels(name)) ==>
        Wire(Labels(name)) == [|first|] + first + Wire(Labels(Rest(name))) && |Wire(Labels(Rest(name)))| >= 1)
  {
    LabelsCons(name);
    OneLabel(name[..FirstDot(name)], Labels(Rest(name)));
    if LabelsOk(Labels(name)) {
      WireLength(Labels(Rest(name)));
    }
  }

  /** encode_name: exactly the wire form of the labels, when it fits. */
  method EncodeName(name: Text, limit: nat) returns (ok: bool, out: seq<u8>)
    ensures ok <==> Encodable(name, limit)
    ensures ok ==> out == Wire(Labels(name))
  {
    hide FirstDot, Labels, Wire, LabelsOk, Rest;
    out := [];
    var index := 0;
    assert name[0..] == name;
    while index < |name|
      invariant 0 <= index <= |name| && (out == [] <==> index == 0)
      invariant out != [] ==> |out| < limit
      invariant LabelsOk(Labels(name)) <==> LabelsOk(Labels(name[index..]))
      invariant LabelsOk(Labels(name)) ==> Wire(Labels(name)) == out + Wire(Labels(name[index..]))
      decreases |name| - index
    {
      var size := LabelSize(name, index);
      ghost var tail := name[index..];
      LabelStep(tail);
      TailParts(name, index);
      if size == 0 || size > LABEL_MAX || |out| + size + 1 >= limit {
        return false, [];
      }
      ghost var before := out;
      out := out + ([size] + name[index..index + size]);
      index := index + size;
      if index < |name| {
        index := index + 1;
      }
      if LabelsOk(Labels(name)) {
        Regroup(before, [size] + tail[..size], Wire(Labels(Rest(tail))));
      }
    }
    assert name[index..] == [];
    NoLabels();
    if |out| == 0 || |out| + 1 > limit {
      return false, [];
    }
    out := out + [0];
    ok := true;
  }

  /** The label at `index`, and where the next one starts. */
  lemma TailParts(name: Text, index: nat)
    requires index < |name|
    ensures var tail := name[index..]; var k := FirstDot(tail);
      && index + k <= |name| && tail[..k] == name[index..index + k]
      && Rest(tail) == name[if index + k < |name| then index + k + 1 else index + k..]
  {
    hide FirstDot;
  }

  lemma Regroup(a: seq<u8>, b: seq<u8>, c: seq<u8>)
    ensures a + (b + c) == (a + b) + c
  {
  }

  lemma NoLabels()
    ensures Labels([]) == [] && LabelsOk([]) && Wire([]) == [0]
  {
  }

  lemma OneLabel(first: Text, rest: seq<Text>)
    ensures LabelsOk([first] + rest) <==> 1 <= |first| <= LABEL_MAX && LabelsOk(rest)
    ensures LabelsOk([first] + rest) ==> Wire([first] + rest) == [|first|] + first + Wire(rest)
  {
    var all := [first] + rest;
    assert all[0] == first && all[1..] == rest;
    if 1 <= |first| <= LABEL_MAX && LabelsOk(rest) {
      forall i | 0 <= i < |all|
        ensures 1 <= |all[i]| <= LABEL_MAX
      {
        assert i > 0 ==> all[i] == rest[i - 1];
      }
    }
    if LabelsOk(all) {
      forall i | 0 <= i < |rest|
        ensures 1 <= |rest[i]| <= LABEL_MAX
      {
        assert rest[i] == all[i + 1];
      }
    }
  }

  lemma WireLength(labels: seq<Text>)
    requires LabelsOk(labels)
    ensures |Wire(labels)| >= 1
  {
  }

  // ---- reading names back -------------------------------------------------

  /** Where a compression pointer leads. */
  function Target(m: seq<u8>, cursor: nat): nat
    requires cursor + 1 < |m| && m[cursor] >= 192
  {
    var high: nat := m[cursor] - 192;
    high * 256 + m[cursor + 1]
  }

  function WithDot(text: Text, limit: nat): Text
  {
    if text != [] && |text| + 1 < limit then text + [DOT] else text
  }

  /**
    The meaning of a possibly compressed name: its text, or nothing when the
    bytes are malformed.  Jumps left, then bytes left, shrink at every step.
   */
  function ReadName(m: seq<u8>, cursor: nat, jumps: nat, text: Text, limit: nat): Option<Text>
    decreases JUMP_MAX - jumps, |m| - cursor
  {
    if cursor >= |m| then None
    else if m[cursor] >= 192 then
      if cursor + 1 >= |m| || Target(m, cursor) >= cursor || jumps + 1 > JUMP_MAX then None
      else ReadName(m, Target(m, cursor), jumps + 1, text, limit)
    else if m[cursor] >= 64 then None
    else if m[cursor] == 0 then Some(text)
    else
      var next := cursor + 1 + m[cursor];
      if next > |m| || |WithDot(text, limit)| + m[cursor] >= limit then None
      else ReadName(m, next, jumps, WithDot(text, limit) + m[cursor + 1..next], limit)
  }

  /** The offset just past the name where it stands: past its first pointer, or past its final zero. */
  function NameEnd(m: seq<u8>, cursor: nat): (r: nat)
    decreases |m| - cursor
  {
    if cursor >= |m| then cursor
    else if m[cursor] >= 192 then cursor + 2
    else if m[cursor] == 0 || m[cursor] >= 64 then cursor + 1
    else NameEnd(m, cursor + 1 + m[cursor])
  }

  /** skip_name, collecting text: ends on every message and agrees with the name's meaning. */
  method SkipName(m: seq<u8>, offset: nat, limit: nat) returns (ok: bool, next: nat, text: Text)
    ensures ok <==> ReadName(m, offset, 0, [], limit).Some?
    ensures ok ==> text == ReadName(m, offset, 0, [], limit).value
    ensures ok ==> offset < next <= |m| && next == NameEnd(m, offset)
  {
    hide ReadName, NameEnd, WithDot;
    var jumps: nat, cursor: nat, followed := 0, offset, false;
    next, text := 0, [];
    while cursor < |m|
      invariant jumps <= JUMP_MAX && (followed <==> jumps > 0)
      invariant ReadName(m, offset, 0, [], limit) == ReadName(m, cursor, jumps, text, limit)
      invariant !followed ==> cursor >= offset && NameEnd(m, offset) == NameEnd(m, cursor)
      invariant followed ==> offset < next <= |m| && next == NameEnd(m, offset)
      decreases JUMP_MAX - jumps, |m| - cursor
    {
      var marker := m[cursor];
      ReadStep(m, cursor, jumps, text, limit);
      EndStep(m, cursor);
      if marker >= 192 {
        if cursor + 1 >= |m| {
          return false, next, text;
        }
        var target := Target(m, cursor);
        if target >= cursor {
          return false, next, text;
        }
        if jumps + 1 > JUMP_MAX {
          return false, next, text;
        }
        if !followed {
          next := cursor + 2;
        }
        jumps, followed := jumps + 1, true;
        cursor := target;
      } else {
        if marker >= 64 {
          return false, next, text;
        }
        if marker == 0 {
          if !followed {
            next := cursor + 1;
          }
          return true, next, text;
        }
        if cursor + 1 + marker > |m| {
          return false, next, text;
        }
        var dotted := WithDot(text, limit);
        if |dotted| + marker >= limit {
          return false, next, text;
        }
        text := dotted + m[cursor + 1..cursor + 1 + marker];
        cursor := cursor + 1 + marker;
      }
    }
    ReadPast(m, cursor, jumps, text, limit);
    ok := false;
  }

  lemma ReadPast(m: seq<u8>, cursor: nat, jumps: nat, text: Text, limit: nat)
    requires cursor >= |m|
    ensures ReadName(m, cursor, jumps, text, limit) == None
  {
  }

  lemma EndStep(m: seq<u8>, cursor: nat)
    requires cursor < |m|
    ensures m[cursor] >= 192 ==> NameEnd(m, cursor) == cursor + 2
    ensures m[cursor] == 0 ==> NameEnd(m, cursor) == cursor + 1
    ensures 0 < m[cursor] < 64 ==> NameEnd(m, cursor) == NameEnd(m, cursor + 1 + m[cursor])
  {
  }

  /** One byte of a name decides: a pointer, an error, the end, or a label. */
  lemma ReadStep(m: seq<u8>, cursor: nat, jumps: nat, text: Text, limit: nat)
    requires cursor < |m| && jumps <= JUMP_MAX
    ensures var r := ReadName(m, cursor, jumps, text, limit);
      && (m[cursor] >= 192 && (cursor + 1 >= |m| || Target(m, cursor) >= cursor || jumps + 1 > JUMP_MAX) ==> r == None)
      && (m[cursor] >= 192 && cursor + 1 < |m| && Target(m, cursor) < cursor && jumps + 1 <= JUMP_MAX ==>
            r == ReadName(m, Target(m, cursor), jumps + 1, text, limit))
      && (64 <= m[cursor] < 192 ==> r == None)
      && (m[cursor] == 0 ==> r == Some(text))
    ensures 0 < m[cursor] < 64 ==>
      var r, next := ReadName(m, cursor, jumps, text, limit), cursor + 1 + m[cursor];
      if next > |m| || |WithDot(text, limit)| + m[cursor] >= limit then r == None
      else r == ReadName(m, next, jumps, WithDot(text, limit) + m[cursor + 1..next], limit)
  {
    hide WithDot;
  }

  /** The text a reader accumulates from labels, dots between them. */
  function Spelled(text: Text, labels: seq<Text>): Text
    decreases |labels|
  {
    if labels == [] then text else Spelled(Joined(text, labels[0]), labels[1..])
  }

  function Joined(text: Text, next: Text): Text
  {
    (if text == [] then [] else text + [DOT]) + next
  }

  /** The wire form of labels that something else follows. */
  function Front(labels: seq<Text>): seq<u8>
    requires LabelsOk(labels)
  {
    if labels == [] then [] else [|labels[0]|] + labels[0] + Front(labels[1..])
  }

  ghost predicate Holds(m: seq<u8>, cursor: nat, bytes: seq<u8>)
  {
    cursor + |bytes| <= |m| && m[cursor..cursor + |bytes|] == bytes
  }

  lemma HoldsParts(m: seq<u8>, cursor: nat, a: seq<u8>, b: seq<u8>)
    ensures Holds(m, cursor, a + b) <==> Holds(m, cursor, a) && Holds(m, cursor + |a|, b)
  {
    var n, k := |a + b|, |a|;
    if cursor + n <= |m| {
      var part := m[cursor..cursor + n];
      assert part[..k] == m[cursor..cursor + k] && part[k..] == m[cursor + k..cursor + n];
      assert part == part[..k] + part[k..];
      assert (a + b)[..k] == a && (a + b)[k..] == b;
    }
  }

  lemma FrontCons(labels: seq<Text>)
    requires LabelsOk(labels) && labels != []
    ensures LabelsOk(labels[1..]) && 1 <= |labels[0]| <= LABEL_MAX
    ensures Front(labels) == [|labels[0]|] + labels[0] + Front(labels[1..])
  {
  }

  lemma {:induction false} WireFront(labels: seq<Text>)
    requires LabelsOk(labels)
    ensures Wire(labels) == Front(labels) + [0]
  {
    if labels != [] {
      WireFront(labels[1..]);
    }
  }

  /** Reading labels spells them out and goes on behind them. */
  lemma {:induction false} ReadFront(m: seq<u8>, cursor: nat, jumps: nat, text: Text, labels: seq<Text>, limit: nat)
    requires LabelsOk(labels) && Holds(m, cursor, Front(labels)) && cursor + |Front(labels)| < |m|
    requires labels == [] || |Spelled(text, labels)| < limit
    ensures var next := cursor + |Front(labels)|;
      && ReadName(m, cursor, jumps, text, limit) == ReadName(m, next, jumps, Spelled(text, labels), limit)
      && NameEnd(m, cursor) == NameEnd(m, next)
    decreases |labels|
  {
    hide Joined, ReadName, NameEnd, Front, Holds, LabelsOk;
    if labels == [] {
      assert |Front(labels)| == 0 by {
        NoFront();
      }
    } else {
      var first, rest := labels[0], labels[1..];
      FrontCons(labels);
      HoldsParts(m, cursor, [|first|] + first, Front(rest));
      HoldsLabel(m, cursor, first);
      SpelledLonger(Joined(text, first), rest);
      ReadLabel(m, cursor, jumps, text, first, limit);
      ReadFront(m, cursor + 1 + |first|, jumps, Joined(text, first), rest, limit);
    }
  }

  lemma NoFront()
    ensures Front([]) == []
  {
  }

  lemma HoldsLabel(m: seq<u8>, cursor: nat, first: Text)
    requires |first| <= LABEL_MAX
    ensures Holds(m, cursor, [|first|] + first) <==>
      cursor + 1 + |first| <= |m| && m[cursor] == |first| && m[cursor + 1..cursor + 1 + |first|] == first
  {
    HoldsParts(m, cursor, [|first|], first);
  }

  /** Reading the wire form of labels spells them out and stops behind them. */
  lemma ReadWire(m: seq<u8>, cursor: nat, jumps: nat, text: Text, labels: seq<Text>, limit: nat)
    requires LabelsOk(labels) && Holds(m, cursor, Wire(labels)) && jumps <= JUMP_MAX
    requires labels == [] || |Spelled(text, labels)| < limit
    ensures ReadName(m, cursor, jumps, text, limit) == Some(Spelled(text, labels))
    ensures NameEnd(m, cursor) == cursor + |Wire(labels)|
  {
    hide ReadName, NameEnd, Front, Wire, Spelled, LabelsOk;
    var next := cursor + |Front(labels)|;
    WireFront(labels);
    HoldsParts(m, cursor, Front(labels), [0]);
    assert m[next..next + 1][0] == 0;
    ReadFront(m, cursor, jumps, text, labels, limit);
    ReadStep(m, next, jumps, Spelled(text, labels), limit);
    EndStep(m, next);
  }

  // ---- compression --------------------------------------------------------

  const OFFSET_MAX := 0x4000

  function Pointer(at: nat): seq<u8>
    requires at < OFFSET_MAX
  {
    [192 + at / 256, at % 256]
  }

  /** Labels stand at `cursor` and a pointer behind them leads back to `at`. */
  ghost predicate Hop(m: seq<u8>, cursor: nat, labels: seq<Text>, at: nat)
  {
    && LabelsOk(labels) && at < OFFSET_MAX && at < cursor + |Front(labels)|
    && Holds(m, cursor, Front(labels) + Pointer(at))
  }

  /** The bytes at `cursor` are a compressed form of the labels that takes so many pointers. */
  ghost predicate Stands(m: seq<u8>, cursor: nat, labels: seq<Text>, pointers: nat)
    decreases pointers
  {
    if pointers == 0 then LabelsOk(labels) && Holds(m, cursor, Wire(labels))
    else exists k: nat, at: nat ::
      k <= |labels| && Hop(m, cursor, labels[..k], at) && Stands(m, at, labels[k..], pointers - 1)
  }

  lemma PointerTarget(m: seq<u8>, p: nat)
    requires p + 1 < |m|
    ensures m[p] >= 192 ==> Target(m, p) < OFFSET_MAX && Holds(m, p, Pointer(Target(m, p)))
    ensures forall at: nat :: at < OFFSET_MAX && Holds(m, p, Pointer(at)) ==> m[p] >= 192 && Target(m, p) == at
  {
    assert m[p..p + 2] == [m[p], m[p + 1]];
  }

  /** Labels and a pointer read as the labels, then as what stands where the pointer leads. */
  lemma ReadHop(m: seq<u8>, cursor: nat, jumps: nat, text: Text, labels: seq<Text>, at: nat, limit: nat)
    requires Hop(m, cursor, labels, at) && jumps < JUMP_MAX
    requires labels == [] || |Spelled(text, labels)| < limit
    ensures ReadName(m, cursor, jumps, text, limit) == ReadName(m, at, jumps + 1, Spelled(text, labels), limit)
    ensures NameEnd(m, cursor) == cursor + |Front(labels)| + 2
  {
    hide ReadName, NameEnd, Front, Spelled, LabelsOk, Target;
    var next := cursor + |Front(labels)|;
    HoldsParts(m, cursor, Front(labels), Pointer(at));
    PointerTarget(m, next);
    ReadFront(m, cursor, jumps, text, labels, limit);
    ReadStep(m, next, jumps, Spelled(text, labels), limit);
    EndStep(m, next);
  }

  /** Labels and a pointer back to a plain name are the joined name, and end just past the pointer. */
  lemma ReadPointed(m: seq<u8>, cursor: nat, labels: seq<Text>, at: nat, rest: seq<Text>, limit: nat)
    requires Hop(m, cursor, labels, at) && LabelsOk(rest) && Holds(m, at, Wire(rest))
    requires labels + rest == [] || |Dotted(labels + rest)| < limit
    ensures ReadName(m, cursor, 0, [], limit) == Some(Dotted(labels + rest))
    ensures NameEnd(m, cursor) == cursor + |Front(labels)| + 2
  {
    hide ReadName, NameEnd, Front, Spelled, Wire, Dotted, Hop, Holds;
    var all := labels + rest;
    assert all[..|labels|] == labels && all[|labels|..] == rest;
    assert Stands(m, at, rest, 0);
    assert Stands(m, cursor, all, 1);
    StandsOk(m, cursor, all, 1);
    SpelledAll(all);
    ReadStands(m, cursor, 0, [], all, 1, limit);
    SpelledFront([], labels, rest);
    ReadHop(m, cursor, 0, [], labels, at, limit);
  }

  lemma {:induction false} SpelledFront(text: Text, labels: seq<Text>, rest: seq<Text>)
    ensures Spelled(text, labels + rest) == Spelled(Spelled(text, labels), rest)
    ensures |Spelled(text, labels)| <= |Spelled(text, labels + rest)|
    decreases |labels|
  {
    hide Joined;
    if labels == [] {
      assert labels + rest == rest;
    } else {
      assert (labels + rest)[1..] == labels[1..] + rest;
      SpelledFront(Joined(text, labels[0]), labels[1..], rest);
    }
    SpelledLonger(Spelled(text, labels), rest);
  }

  lemma SpelledAll(labels: seq<Text>)
    requires LabelsOk(labels)
    ensures Spelled([], labels) == Dotted(labels)
  {
    if labels != [] {
      SpelledDotted([], labels);
      assert Joined([], Dotted(labels)) == Dotted(labels);
    }
  }

  lemma {:induction false} StandsOk(m: seq<u8>, cursor: nat, labels: seq<Text>, pointers: nat)
    requires Stands(m, cursor, labels, pointers)
    ensures LabelsOk(labels)
    decreases pointers
  {
    hide Front, Holds, Wire, Pointer;
    if pointers > 0 {
      var k: nat, at: nat :| k <= |labels| && Hop(m, cursor, labels[..k], at)
      && Stands(m, at, labels[k..], pointers - 1);
      StandsOk(m, at, labels[k..], pointers - 1);
      forall i | 0 <= i < |labels|
        ensures 1 <= |labels[i]| <= LABEL_MAX
      {
        assert labels[i] == if i < k then labels[..k][i] else labels[k..][i - k];
      }
    }
  }

  /** A compressed name within the jump limit reads as its labels. */
  lemma {:induction false} ReadStands(
    m: seq<u8>, cursor: nat, jumps: nat, text: Text, labels: seq<Text>, pointers: nat, limit: nat)
    requires Stands(m, cursor, labels, pointers) && jumps + pointers <= JUMP_MAX
    requires labels == [] || |Spelled(text, labels)| < limit
    ensures ReadName(m, cursor, jumps, text, limit) == Some(Spelled(text, labels))
    decreases pointers
  {
    hide ReadName, NameEnd, Front, Spelled, LabelsOk, Hop, Holds, Wire;
    if pointers == 0 {
      ReadWire(m, cursor, jumps, text, labels, limit);
    } else {
      var k: nat, at: nat :| k <= |labels| && Hop(m, cursor, labels[..k], at)
      && Stands(m, at, labels[k..], pointers - 1);
      assert labels == labels[..k] + labels[k..];
      SpelledFront(text, labels[..k], labels[k..]);
      ReadHop(m, cursor, jumps, text, labels[..k], at, limit);
      ReadStands(m, at, jumps + 1, Spelled(text, labels[..k]), labels[k..], pointers - 1, limit);
    }
  }

  lemma PointerStands(m: seq<u8>, cursor: nat, labels: seq<Text>, pointers: nat)
    requires cursor + 1 < |m| && m[cursor] >= 192 && Target(m, cursor) < cursor
    requires Stands(m, Target(m, cursor), labels, pointers)
    ensures Stands(m, cursor, labels, pointers + 1)
  {
    hide Target, Pointer, Wire;
    var at := Target(m, cursor);
    PointerTarget(m, cursor);
    assert labels[..0] == [] && labels[0..] == labels && [] + Pointer(at) == Pointer(at);
    assert Hop(m, cursor, labels[..0], at);
  }

  lemma LabelStands(m: seq<u8>, cursor: nat, first: Text, rest: seq<Text>, pointers: nat)
    requires 1 <= |first| <= LABEL_MAX && Holds(m, cursor, [|first|] + first)
    requires Stands(m, cursor + 1 + |first|, rest, pointers)
    ensures Stands(m, cursor, [first] + rest, pointers)
  {
    hide Holds, Front, Wire, LabelsOk, Hop;
    var next, all := cursor + 1 + |first|, [first] + rest;
    if pointers == 0 {
      OneLabel(first, rest);
      HoldsParts(m, cursor, [|first|] + first, Wire(rest));
    } else {
      var k: nat, at: nat :| k <= |rest| && Hop(m, next, rest[..k], at) && Stands(m, at, rest[k..], pointers - 1);
      HopLabel(m, cursor, first, rest[..k], at);
      assert all[..k + 1] == [first] + rest[..k] && all[k + 1..] == rest[k..];
    }
  }

  lemma HopLabel(m: seq<u8>, cursor: nat, first: Text, rest: seq<Text>, at: nat)
    requires 1 <= |first| <= LABEL_MAX && Holds(m, cursor, [|first|] + first)
    requires Hop(m, cursor + 1 + |first|, rest, at)
    ensures Hop(m, cursor, [first] + rest, at)
  {
    hide Holds, Front, Wire, LabelsOk, Pointer;
    var all, head := [first] + rest, [|first|] + first;
    OneLabel(first, rest);
    FrontCons(all);
    assert all[1..] == rest;
    HoldsParts(m, cursor, head, Front(rest) + Pointer(at));
    Regroup(head, Front(rest), Pointer(at));
  }

  /** Whatever a reader accepts is a compressed name within the jump limit. */
  lemma {:induction false} StandsRead(m: seq<u8>, cursor: nat, jumps: nat, text: Text, limit: nat)
    returns (labels: seq<Text>, pointers: nat)
    requires ReadName(m, cursor, jumps, text, limit).Some? && jumps <= JUMP_MAX
    ensures Stands(m, cursor, labels, pointers) && jumps + pointers <= JUMP_MAX
    ensures ReadName(m, cursor, jumps, text, limit) == Some(Spelled(text, labels))
    ensures labels == [] || |Spelled(text, labels)| < limit
    decreases JUMP_MAX - jumps, |m| - cursor
  {
    hide ReadName, Stands, WithDot, Holds, Joined;
    if cursor >= |m| {
      ReadPast(m, cursor, jumps, text, limit);
    }
    ReadStep(m, cursor, jumps, text, limit);
    if m[cursor] >= 192 {
      labels, pointers := StandsRead(m, Target(m, cursor), jumps + 1, text, limit);
      PointerStands(m, cursor, labels, pointers);
      pointers := pointers + 1;
    } else if m[cursor] == 0 {
      labels, pointers := [], 0;
      RootStands(m, cursor);
    } else {
      var n := m[cursor];
      var next := cursor + 1 + n;
      var first := m[cursor + 1..next];
      Dot(text, first, limit);
      labels, pointers := StandsRead(m, next, jumps, Joined(text, first), limit);
      HoldsLabel(m, cursor, first);
      LabelStands(m, cursor, first, labels, pointers);
      assert ([first] + labels)[1..] == labels;
      labels := [first] + labels;
    }
  }

  lemma Dot(text: Text, first: Text, limit: nat)
    requires first != [] && |WithDot(text, limit)| + |first| < limit
    ensures WithDot(text, limit) + first == Joined(text, first)
  {
  }

  lemma RootStands(m: seq<u8>, cursor: nat)
    requires cursor < |m| && m[cursor] == 0
    ensures Stands(m, cursor, [], 0)
  {
    assert m[cursor..cursor + 1] == [m[cursor]];
  }

  /** A compressed form of the name, at most sixteen pointers long, that fits the limit. */
  ghost predicate Names(m: seq<u8>, cursor: nat, text: Text, limit: nat)
  {
    exists labels: seq<Text>, pointers: nat ::
      Stands(m, cursor, labels, pointers) && pointers <= JUMP_MAX && text == Dotted(labels)
      && (labels == [] || |text| < limit)
  }

  /** Reading yields a text exactly when the bytes are a compressed form of it. */
  lemma ReadExactly(m: seq<u8>, cursor: nat, text: Text, limit: nat)
    ensures ReadName(m, cursor, 0, [], limit) == Some(text) <==> Names(m, cursor, text, limit)
  {
    hide ReadName, Stands, Dotted, Spelled, LabelsOk;
    if ReadName(m, cursor, 0, [], limit) == Some(text) {
      var labels, pointers := StandsRead(m, cursor, 0, [], limit);
      StandsOk(m, cursor, labels, pointers);
      SpelledAll(labels);
    }
    if Names(m, cursor, text, limit) {
      var labels: seq<Text>, pointers: nat :|
        Stands(m, cursor, labels, pointers) && pointers <= JUMP_MAX && text == Dotted(labels)
        && (labels == [] || |text| < limit);
      StandsOk(m, cursor, labels, pointers);
      SpelledAll(labels);
      ReadStands(m, cursor, 0, [], labels, pointers, limit);
    }
  }

  lemma ReadLabel(m: seq<u8>, cursor: nat, jumps: nat, text: Text, first: Text, limit: nat)
    requires 1 <= |first| <= LABEL_MAX && cursor + 1 + |first| < |m| && m[cursor] == |first|
             && m[cursor + 1..cursor + 1 + |first|] == first
    requires |Joined(text, first)| < limit
    ensures ReadName(m, cursor, jumps, text, limit)
      == ReadName(m, cursor + 1 + |first|, jumps, Joined(text, first), limit)
    ensures NameEnd(m, cursor) == NameEnd(m, cursor + 1 + |first|)
  {
    assert WithDot(text, limit) + first == Joined(text, first);
  }

  lemma {:induction false} SpelledLonger(text: Text, labels: seq<Text>)
    ensures |Spelled(text, labels)| >= |text|
    decreases |labels|
  {
    if labels != [] {
      SpelledLonger(Joined(text, labels[0]), labels[1..]);
    }
  }

  lemma {:induction false} SpelledDotted(text: Text, labels: seq<Text>)
    requires LabelsOk(labels) && labels != []
    ensures Spelled(text, labels) == Joined(text, Dotted(labels))
    decreases |labels|
  {
    var start := Joined(text, labels[0]);
    if |labels| == 1 {
      assert labels[1..] == [];
    } else {
      SpelledDotted(start, labels[1..]);
      assert Dotted(labels) == labels[0] + [DOT] + Dotted(labels[1..]);
    }
  }

  // ---- questions ----------------------------------------------------------

  /** The question message for a name: header, wire name, type and class. */
  function Query(name: Text, kind: nat, transaction: nat): seq<u8>
    requires LabelsOk(Labels(name))
  {
    Be16(transaction % 0x1_0000) + Be16(0x0100) + Be16(1) + Zeros(6) + Wire(Labels(name)) + Be16(kind) + Be16(1)
  }

  /** dns_build_query. */
  method BuildQuery(limit: nat, name: Text, kind: nat, transaction: nat) returns (message: seq<u8>)
    ensures message != [] <==> limit >= HEADER + 5 && 0 < |name| <= NAME_MAX && Encodable(name, limit - HEADER - 4)
    ensures message != [] ==> message == Query(name, kind, transaction) && |message| <= limit
  {
    hide Labels, Wire;
    if limit < HEADER + 5 || |name| == 0 || |name| > NAME_MAX {
      return [];
    }
    var header := Be16(transaction % 0x1_0000) + Be16(0x0100) + Be16(1) + Zeros(6);
    var ok, wire := EncodeName(name, limit - HEADER - 4);
    if !ok {
      return [];
    }
    message := header + wire + Be16(kind) + Be16(1);
  }

  function Fold(b: u8): u8
  {
    if 65 <= b <= 90 then b + 32 else b
  }

  /** The byte a C string shows at an index; its terminator from the end on. */
  function At(text: Text, i: nat): u8
  {
    if i < |text| then text[i] else 0
  }

  /** The C strings are equal but for case and not longer than a name may be. */
  ghost predicate SameName(a: Text, b: Text)
  {
    exists n: nat :: n <= NAME_MAX && At(a, n) == 0 && At(b, n) == 0 && AgreeTo(a, b, n)
  }

  ghost predicate AgreeTo(a: Text, b: Text, n: nat)
  {
    forall i :: 0 <= i < n ==> Fold(At(a, i)) == Fold(At(b, i)) && At(a, i) != 0
  }

  /** names_equal. */
  method NamesEqual(a: Text, b: Text) returns (r: bool)
    ensures r <==> SameName(a, b)
  {
    var index := 0;
    while index <= NAME_MAX
      invariant 0 <= index <= NAME_MAX + 1 && AgreeTo(a, b, index)
    {
      if Fold(At(a, index)) != Fold(At(b, index)) {
        Differ(a, b, index);
        return false;
      }
      if At(a, index) == 0 {
        return true;
      }
      index := index + 1;
    }
    TooLong(a, b);
    r := false;
  }

  lemma Differ(a: Text, b: Text, k: nat)
    requires AgreeTo(a, b, k) && Fold(At(a, k)) != Fold(At(b, k))
    ensures !SameName(a, b)
  {
    forall n: nat | n <= NAME_MAX && At(a, n) == 0 && At(b, n) == 0
      ensures !AgreeTo(a, b, n)
    {
    }
  }

  lemma TooLong(a: Text, b: Text)
    requires AgreeTo(a, b, NAME_MAX + 1)
    ensures !SameName(a, b)
  {
  }

  /** What question_matches asks of a message. */
  ghost predicate Matches(m: seq<u8>, name: Text, kind: nat)
  {
    match ReadName(m, HEADER, 0, [], NAME_MAX + 1)
    case None => false
    case Some(text) =>
      var next := NameEnd(m, HEADER);
      next + 4 <= |m| && ReadBe16(m, next) == kind && ReadBe16(m, next + 2) == 1 && SameName(text, name)
  }

  /** question_matches. */
  method QuestionMatches(m: seq<u8>, name: Text, kind: nat) returns (r: bool, answers: nat)
    ensures r <==> Matches(m, name, kind)
    ensures r ==> answers == NameEnd(m, HEADER) + 4 <= |m|
  {
    hide ReadName, NameEnd, SameName;
    answers := 0;
    var ok, next, text := SkipName(m, HEADER, NAME_MAX + 1);
    if !ok || next + 4 > |m| || ReadBe16(m, next) != kind || ReadBe16(m, next + 2) != 1 {
      return false, 0;
    }
    r := NamesEqual(text, name);
    answers := next + 4;
  }

  lemma SameIsSameLength(a: Text, b: Text)
    requires IsString(a) && IsString(b) && SameName(a, b)
    ensures |a| == |b|
  {
    var n: nat :| n <= NAME_MAX && At(a, n) == 0 && At(b, n) == 0 && AgreeTo(a, b, n);
    assert At(a, |a|) == 0 && At(b, |b|) == 0 && Fold(0) == 0;
    assert n >= |a| && n >= |b|;
  }

  lemma SameSelf(a: Text)
    requires IsString(a) && |a| <= NAME_MAX
    ensures SameName(a, a)
  {
    assert At(a, |a|) == 0 && AgreeTo(a, a, |a|);
  }

  /** The parts of a query as a reader sees them. */
  lemma QueryParts(name: Text, kind: nat, transaction: nat)
    requires LabelsOk(Labels(name))
    ensures var m, w := Query(name, kind, transaction), Wire(Labels(name));
      && |m| == HEADER + |w| + 4 && m[HEADER..HEADER + |w|] == w
      && ReadBe16(m, HEADER + |w|) == kind % 0x1_0000 && ReadBe16(m, HEADER + |w| + 2) == 1
  {
    hide Labels, Wire;
    var m, w := Query(name, kind, transaction), Wire(Labels(name));
    assert m[HEADER + |w|] == Be16(kind)[0] && m[HEADER + |w| + 1] == Be16(kind)[1];
    assert m[HEADER + |w| + 2] == Be16(1)[0] && m[HEADER + |w| + 3] == Be16(1)[1];
    Halves(kind);
  }

  /** Any accepted name reads back from its question, less a trailing dot. */
  lemma QueryReads(name: Text, kind: nat, transaction: nat)
    requires 0 < |name| <= NAME_MAX && LabelsOk(Labels(name))
    ensures ReadName(Query(name, kind, transaction), HEADER, 0, [], NAME_MAX + 1) == Some(Dotted(Labels(name)))
    ensures NameEnd(Query(name, kind, transaction), HEADER) == HEADER + |Wire(Labels(name))|
  {
    hide Wire, ReadName, NameEnd, Query, Spelled, Dotted, LabelsOk, Labels;
    var m, labels := Query(name, kind, transaction), Labels(name);
    LabelsCons(name);
    QueryParts(name, kind, transaction);
    DottedLabels(name);
    SpelledDotted([], labels);
    assert Joined([], Dotted(labels)) == Dotted(labels);
    ReadWire(m, HEADER, 0, [], labels, NAME_MAX + 1);
  }

  /**
    A built question matches its name and type exactly when the name has no
    trailing dot and the type fits sixteen bits.
   */
  lemma QueryRoundTrip(name: Text, kind: nat, transaction: nat)
    requires IsString(name) && 0 < |name| <= NAME_MAX && LabelsOk(Labels(name))
    ensures Matches(Query(name, kind, transaction), name, kind) <==> !EndsInDot(name) && kind < 0x1_0000
  {
    hide Wire, ReadName, NameEnd, SameName, Query, Labels, Dotted, LabelsOk, ReadBe16;
    var text := Dotted(Labels(name));
    QueryParts(name, kind, transaction);
    QueryReads(name, kind, transaction);
    DottedLabels(name);
    assert kind % 0x1_0000 == kind <==> kind < 0x1_0000;
    if EndsInDot(name) {
      if SameName(text, name) {
        SameIsSameLength(text, name);
      }
    } else {
      SameSelf(name);
    }
  }
}
