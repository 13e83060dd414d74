/** Byte strings, and the one way the programs modelled here cut them up: at every
    occurrence of a separator, as Rust's `slice::split` does. */
module Bytes {

  type byte = x: int | 0 <= x < 256 witness 0
  type Bytes = seq<byte>

  const SLASH: byte := 47
  const DOT: byte := 46
  const U32 := 0x1_0000_0000
  const U64 := 0x1_0000_0000_0000_0000

  type u32 = x: int | 0 <= x < U32 witness 0

  datatype Option<+T> = None | Some(value: T)

  /** A text of plain characters as its bytes. */
  function Ascii(text: string): (s: Bytes)
    ensures |s| == |text|
  {
    seq(|text|, i requires 0 <= i < |text| => text[i] as int % 256)
  }

  /** Pieces one after another. */
  function Concat(pieces: seq<Bytes>): Bytes {
    if pieces == [] then [] else pieces[0] + Concat(pieces[1..])
  }

  /** The place of the first `b`, or the length when there is none. */
  function Index(s: Bytes, b: byte): (at: nat)
    ensures at <= |s|
    ensures at < |s| ==> s[at] == b
    ensures b !in s[..at]
    decreases |s|
  {
    if s == [] || s[0] == b then 0 else
      var at := 1 + Index(s[1..], b);
      assert s[..at] == [s[0]] + s[1..][..at - 1];
      at
  }

  /** The pieces between separators; always at least one. */
  function Split(s: Bytes, sep: byte): (parts: seq<Bytes>)
    ensures |parts| >= 1
    ensures forall p :: p in parts ==> sep !in p
    decreases |s|
  {
    var at := Index(s, sep);
    if at == |s| then [s] else [s[..at]] + Split(s[at + 1..], sep)
  }

  /** The pieces put back together, one separator between each two. */
  function Unsplit(parts: seq<Bytes>, sep: byte): Bytes
    decreases |parts|
  {
    if parts == [] then []
    else if |parts| == 1 then parts[0]
    else parts[0] + [sep] + Unsplit(parts[1..], sep)
  }

  lemma IndexAt(s: Bytes, b: byte, at: nat)
    requires at <= |s| && b !in s[..at]
    requires at < |s| ==> s[at] == b
    ensures Index(s, b) == at
  {
    var found := Index(s, b);
    assert forall i :: 0 <= i < at ==> s[i] in s[..at];
    assert forall i :: 0 <= i < found ==> s[i] in s[..found];
  }

  lemma SplitNone(s: Bytes, sep: byte)
    requires sep !in s
    ensures Split(s, sep) == [s]
  {
    assert s[..|s|] == s;
    IndexAt(s, sep, |s|);
  }

  lemma SplitFirst(a: Bytes, sep: byte, b: Bytes)
    requires sep !in a
    ensures Split(a + [sep] + b, sep) == [a] + Split(b, sep)
  {
    var s := a + [sep] + b;
    assert s[..|a|] == a && s[|a| + 1..] == b;
    IndexAt(s, sep, |a|);
  }

  lemma {:induction false} SplitConcat(a: Bytes, sep: byte, b: Bytes)
    ensures Split(a + [sep] + b, sep) == Split(a, sep) + Split(b, sep)
    decreases |a|
  {
    hide Split;
    var at := Index(a, sep);
    if at == |a| {
      assert a[..at] == a;
      SplitNone(a, sep);
      SplitFirst(a, sep, b);
    } else {
      var head, rest := a[..at], a[at + 1..];
      assert a == head + [sep] + rest;
      assert a + [sep] + b == head + [sep] + (rest + [sep] + b);
      SplitFirst(head, sep, rest);
      SplitFirst(head, sep, rest + [sep] + b);
      SplitConcat(rest, sep, b);
    }
  }

  lemma {:induction false} SplitUnsplit(parts: seq<Bytes>, sep: byte)
    requires parts != [] && forall p :: p in parts ==> sep !in p
    ensures Split(Unsplit(parts, sep), sep) == parts
    decreases |parts|
  {
    if |parts| == 1 {
      SplitNone(parts[0], sep);
    } else {
      SplitFirst(parts[0], sep, Unsplit(parts[1..], sep));
      SplitUnsplit(parts[1..], sep);
    }
  }

  lemma {:induction false} UnsplitSplit(s: Bytes, sep: byte)
    ensures Unsplit(Split(s, sep), sep) == s
    decreases |s|
  {
    hide Index;
    var at := Index(s, sep);
    if at < |s| {
      UnsplitSplit(s[at + 1..], sep);
      assert Split(s, sep)[1..] == Split(s[at + 1..], sep);
      assert s == s[..at] + [sep] + s[at + 1..];
    }
  }
}
