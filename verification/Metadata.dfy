/** Disk metadata: NUL-terminated key lists and the copy of one disk's table to another. */
module Metadata {
  import opened Bytes
  import opened Device

  const VIX_E_BUFFER_TOOSMALL: nat := 24

  type Text = seq<byte>

  // ----- splitting at NULs

  predicate NulFree(s: Text) {
    0 !in s
  }

  function Terminated(list: seq<Text>): Text {
    if list == [] then [] else list[0] + [0] + Terminated(list[1..])
  }

  function IndexNul(b: Text): (i: int)
    ensures i == -1 <==> NulFree(b)
    ensures i != -1 ==> 0 <= i < |b| && b[i] == 0 && NulFree(b[..i])
  {
    if b == [] then -1
    else if b[0] == 0 then 0
    else
      var i := IndexNul(b[1..]);
      assert i != -1 ==> b[..i + 1] == [b[0]] + b[1..][..i];
      if i == -1 then -1 else i + 1
  }

  /** The pieces a NUL ends, and what comes after the last NUL. */
  function Split(b: Text): (r: (seq<Text>, Text))
    ensures NulFree(r.1) && forall k :: 0 <= k < |r.0| ==> NulFree(r.0[k])
    decreases |b|
  {
    var i := IndexNul(b);
    if i == -1 then ([], b)
    else
      var r := Split(b[i + 1..]);
      ([b[..i]] + r.0, r.1)
  }

  lemma TerminatedFirst(x: Text, list: seq<Text>, rest: Text)
    ensures Terminated([x] + list) + rest == x + [0] + (Terminated(list) + rest)
  {
    assert ([x] + list)[1..] == list;
  }

  lemma SplitFirst(b: Text)
    ensures
      var i := IndexNul(b);
      if i == -1 then Terminated(Split(b).0) + Split(b).1 == b
      else Split(b) == ([b[..i]] + Split(b[i + 1..]).0, Split(b[i + 1..]).1)
  {
  }

  /** Terminating the pieces again rebuilds the input, whatever it is. */
  lemma {:induction false} SplitRebuilds(b: Text)
    ensures Terminated(Split(b).0) + Split(b).1 == b
    decreases |b|
  {
    hide Terminated, Split, IndexNul;
    SplitFirst(b);
    var i := IndexNul(b);
    if i != -1 {
      var tail := b[i + 1..];
      SplitRebuilds(tail);
      TerminatedFirst(b[..i], Split(tail).0, Split(tail).1);
      assert b[..i] + [0] + tail == b;
    }
  }

  lemma FirstNul(s: Text, rest: Text)
    requires NulFree(s)
    ensures IndexNul(s + [0] + rest) == |s|
  {
    var b := s + [0] + rest;
    var i := IndexNul(b);
    assert b[|s|] == 0;
    assert forall k :: 0 <= k < |s| ==> b[k] == s[k] && b[k] in s;
    assert forall k :: 0 <= k < i ==> b[k] == b[..i][k] && b[k] in b[..i];
  }

  /** Splitting inverts terminating: it is the only way to cut a byte string into NUL-free pieces. */
  lemma {:induction false} SplitOfTerminated(list: seq<Text>, rest: Text)
    requires NulFree(rest) && forall k :: 0 <= k < |list| ==> NulFree(list[k])
    ensures Split(Terminated(list) + rest) == (list, rest)
    decreases |list|
  {
    if list == [] {
      assert Terminated(list) + rest == rest;
    } else {
      var tail := Terminated(list[1..]) + rest;
      var b := Terminated(list) + rest;
      assert b == list[0] + [0] + tail;
      FirstNul(list[0], tail);
      assert b[|list[0]| + 1..] == tail && b[..|list[0]|] == list[0];
      SplitOfTerminated(list[1..], rest);
      assert [list[0]] + list[1..] == list;
    }
  }

  /** The loop of `NullTermToStrings`. */
  method NullTermToStrings(b: Text) returns (s: seq<Text>)
    ensures s == Split(b).0
  {
    s := [];
    var rest := b;
    while true
      invariant Split(b).0 == s + Split(rest).0
      decreases |rest|
    {
      var i := IndexNul(rest);
      if i == -1 {
        break;
      }
      ghost var r := Split(rest[i + 1..]).0;
      assert s + ([rest[..i]] + r) == s + [rest[..i]] + r;
      s := s + [rest[..i]];
      rest := rest[i + 1..];
    }
  }

  // ----- blank keys

  /** The length of the white space a byte string starts with one character of, in UTF-8; 0 if none. */
  function SpaceLen(s: Text): (n: nat)
    ensures n <= |s|
  {
    if |s| >= 1 && (9 <= s[0] <= 13 || s[0] == 32) then 1
    else if |s| >= 2 && s[0] == 0xC2 && (s[1] == 0x85 || s[1] == 0xA0) then 2
    else if |s| >= 3 && s[..3] == [0xE1, 0x9A, 0x80] then 3
    else if |s| >= 3 && s[..2] == [0xE2, 0x80] && (0x80 <= s[2] <= 0x8A || s[2] in [0xA8, 0xA9, 0xAF]) then 3
    else if |s| >= 3 && (s[..3] == [0xE2, 0x81, 0x9F] || s[..3] == [0xE3, 0x80, 0x80]) then 3
    else 0
  }

  /** Nothing is left of it once white space is trimmed. */
  predicate Blank(s: Text)
    decreases |s|
  {
    s == [] || (SpaceLen(s) > 0 && Blank(s[SpaceLen(s)..]))
  }

  /** The UTF-8 encodings of the white space characters. */
  function Spaces(): set<Text> {
    {
      [9], [10], [11], [12], [13], [32], [0xC2, 0x85], [0xC2, 0xA0], [0xE1, 0x9A, 0x80],
      [0xE2, 0x80, 0x80], [0xE2, 0x80, 0x81], [0xE2, 0x80, 0x82], [0xE2, 0x80, 0x83], [0xE2, 0x80, 0x84], [0xE2, 0x80, 0x85],
      [0xE2, 0x80, 0x86], [0xE2, 0x80, 0x87], [0xE2, 0x80, 0x88], [0xE2, 0x80, 0x89], [0xE2, 0x80, 0x8A], [0xE2, 0x80, 0xA8],
      [0xE2, 0x80, 0xA9], [0xE2, 0x80, 0xAF], [0xE2, 0x81, 0x9F], [0xE3, 0x80, 0x80] }
  }

  function Joined(parts: seq<Text>): Text {
    if parts == [] then [] else parts[0] + Joined(parts[1..])
  }

  ghost predicate AllSpaces(parts: seq<Text>) {
    forall k :: 0 <= k < |parts| ==> parts[k] in Spaces()
  }

  /** A byte string that consists of white space characters, none at all included. */
  ghost predicate SpacesOnly(s: Text) {
    exists parts :: AllSpaces(parts) && Joined(parts) == s
  }

  /** No encoding is the beginning of another one, so there is only one way to cut one off. */
  lemma SpaceAtFront(s: Text)
    ensures SpaceLen(s) > 0 <==> exists p :: p in Spaces() && p <= s
    ensures SpaceLen(s) > 0 ==> s[..SpaceLen(s)] in Spaces()
    ensures forall p :: p in Spaces() && p <= s ==> |p| == SpaceLen(s)
  {
    hide Spaces, SpaceLen;
    if SpaceLen(s) > 0 {
      FrontIsSpace(s);
      assert s[..SpaceLen(s)] <= s;
    }
    forall p | p in Spaces() && p <= s
      ensures |p| == SpaceLen(s) > 0
    {
      SpaceIsFront(p, s);
    }
  }

  lemma FrontIsSpace(s: Text)
    requires SpaceLen(s) > 0
    ensures s[..SpaceLen(s)] in Spaces()
  {
    var n := SpaceLen(s);
    assert n == 1 ==> s[..1] == [s[0]];
    assert n == 2 ==> s[..2] == [s[0], s[1]];
    assert n == 3 ==> s[..3] == [s[0], s[1], s[2]] && s[..2] == [s[0], s[1]];
  }

  lemma SpaceIsFront(p: Text, s: Text)
    requires p in Spaces() && p <= s
    ensures SpaceLen(s) == |p| > 0
  {
    assert s[..|p|] == p;
    assert |p| == 3 ==> s[..3] == p && s[..2] == [p[0], p[1]];
  }

  /** A key is skipped exactly if it consists of white space. */
  lemma {:induction false} BlankExact(s: Text)
    ensures Blank(s) <==> SpacesOnly(s)
    decreases |s|
  {
    hide Spaces;
    SpaceAtFront(s);
    if Blank(s) {
      BlankHasParts(s);
    }
    if SpacesOnly(s) && s != [] {
      var parts :| AllSpaces(parts) && Joined(parts) == s;
      var rest := parts[1..];
      assert parts[0] in Spaces() && parts[0] <= s;
      assert s[SpaceLen(s)..] == Joined(rest) && AllSpaces(rest);
      BlankExact(s[SpaceLen(s)..]);
    }
  }

  lemma {:induction false} BlankHasParts(s: Text)
    requires Blank(s)
    ensures SpacesOnly(s)
    decreases |s|
  {
    hide Spaces;
    if s == [] {
      assert AllSpaces([]) && Joined([]) == s;
    } else {
      FrontIsSpace(s);
      var first, tail := s[..SpaceLen(s)], s[SpaceLen(s)..];
      BlankHasParts(tail);
      hide AllSpaces, Joined, SpaceLen, Blank;
      var parts :| AllSpaces(parts) && Joined(parts) == tail;
      SpaceBefore(first, parts);
      assert first + tail == s;
    }
  }

  lemma SpaceBefore(first: Text, parts: seq<Text>)
    requires first in Spaces() && AllSpaces(parts)
    ensures AllSpaces([first] + parts) && Joined([first] + parts) == first + Joined(parts)
  {
    hide Spaces;
    assert ([first] + parts)[1..] == parts;
  }

  /** A key with a printable ASCII character in it does not. */
  lemma {:induction false} PrintableIsKept(s: Text, k: nat)
    requires k < |s| && 33 <= s[k] <= 126
    ensures !SpacesOnly(s)
  {
    forall parts | AllSpaces(parts)
      ensures Joined(parts) != s
    {
      NoPrintable(parts);
    }
  }

  lemma {:induction false} NoPrintable(parts: seq<Text>)
    requires AllSpaces(parts)
    ensures forall k :: 0 <= k < |Joined(parts)| ==> !(33 <= Joined(parts)[k] <= 126)
  {
    if parts != [] {
      assert parts[0] in Spaces();
      NoPrintable(parts[1..]);
    }
  }

  // ----- the metadata of a disk

  class MetadataStore {
    var keys: seq<Text>
    var table: map<Text, Text>
    /** How many reads were given a buffer of another length than they needed. */
    ghost var misfits: nat
    /** The codes of the calls that failed, other than for a buffer that was too small. */
    ghost var faults: seq<nat>

    ghost predicate Valid()
      reads this
    {
      && (forall key :: key in table <==> key in keys)
      && (forall key :: key in table ==> NulFree(key) && NulFree(table[key]))
    }

    constructor ()
      ensures Valid() && keys == [] && table == map[] && misfits == 0 && faults == []
    {
      keys, table, misfits, faults := [], map[], 0, [];
    }

    /** A call fails, with some code of its own. */
    method Fail() returns (code: nat)
      modifies this`faults
      ensures code != VIX_OK && code != VIX_E_BUFFER_TOOSMALL && faults == old(faults) + [code]
    {
      var failure: int := *;
      code := if failure > VIX_OK && failure != VIX_E_BUFFER_TOOSMALL then failure else 1;
      faults := faults + [code];
    }

    /** All keys, each ended by a NUL, and one more NUL. */
    function KeyList(): Text
      reads this
    {
      Terminated(keys) + [0]
    }

    /** The library's key list call: with a buffer too small it only reports the length it needs. */
    method LibGetKeys(buf: array<byte>, bufLen: nat) returns (code: nat, required: nat)
      requires Valid() && bufLen <= buf.Length
      modifies buf, this`misfits, this`faults
      ensures misfits == old(misfits) + if bufLen == 0 || bufLen == |KeyList()| then 0 else 1
      ensures faults == old(faults) + NewFaults(code)
      ensures Answered(KeyList(), old(buf[..]), buf[..], bufLen, code, required)
    {
      ghost var before := buf[..];
      if bufLen != 0 && bufLen != |KeyList()| {
        misfits := misfits + 1;
      }
      required := 0;
      if * {
        code := Fail();
        return;
      }
      code, required := Fill(KeyList(), buf, bufLen);
    }

    /** The library's call for one value; a key it does not have is an error. */
    method LibRead(key: Text, buf: array<byte>, bufLen: nat) returns (code: nat, required: nat)
      requires Valid() && bufLen <= buf.Length
      modifies buf, this`misfits, this`faults
      ensures faults == old(faults) + NewFaults(code)
      ensures key in table ==>
        && misfits == old(misfits) + (if bufLen == 0 || bufLen == |table[key]| + 1 then 0 else 1)
        && Answered(table[key] + [0], old(buf[..]), buf[..], bufLen, code, required)
      ensures key !in table ==> code != VIX_OK && code != VIX_E_BUFFER_TOOSMALL && buf[..] == old(buf[..]) && misfits == old(misfits)
    {
      required := 0;
      if key !in table {
        code := Fail();
        return;
      }
      if bufLen != 0 && bufLen != |table[key]| + 1 {
        misfits := misfits + 1;
      }
      if * {
        code := Fail();
        return;
      }
      code, required := Fill(table[key] + [0], buf, bufLen);
    }

    /** The library stores the text up to the first NUL of `buf`. */
    method LibWrite(key: Text, buf: array<byte>) returns (code: nat)
      requires Valid() && NulFree(key) && !NulFree(buf[..])
      modifies this`keys, this`table, this`faults
      ensures Valid() && code != VIX_E_BUFFER_TOOSMALL
      ensures faults == old(faults) + NewFaults(code)
      ensures code == VIX_OK ==> table == old(table)[key := buf[..IndexNul(buf[..])]]
      ensures key in old(table) ==> keys == old(keys)
      ensures code != VIX_OK ==> keys == old(keys) && table == old(table)
    {
      if * {
        code := Fail();
        return;
      }
      if key !in table {
        keys := keys + [key];
      }
      table := table[key := buf[..IndexNul(buf[..])]];
      return VIX_OK;
    }
  }

  function NewFaults(code: nat): seq<nat> {
    if code == VIX_OK || code == VIX_E_BUFFER_TOOSMALL then [] else [code]
  }

  /** What a sized read of `text` comes to: a failure that changes nothing, a report of the length
      needed, or the text in the buffer. */
  ghost predicate Answered(text: Text, before: Text, after: Text, bufLen: nat, code: nat, required: nat) {
    && |before| == |after| >= bufLen
    && (code == VIX_E_BUFFER_TOOSMALL ==> bufLen < |text| && required == |text|)
    && (code == VIX_OK ==> bufLen >= |text| && after == text + before[|text|..])
    && (code != VIX_OK ==> after == before)
  }

  method Fill(text: Text, buf: array<byte>, bufLen: nat) returns (code: nat, required: nat)
    requires bufLen <= buf.Length
    modifies buf
    ensures code == VIX_OK || code == VIX_E_BUFFER_TOOSMALL
    ensures Answered(text, old(buf[..]), buf[..], bufLen, code, required)
  {
    required := |text|;
    if bufLen < |text| {
      return VIX_E_BUFFER_TOOSMALL, required;
    }
    forall i | 0 <= i < |text| {
      buf[i] := text[i];
    }
    code := VIX_OK;
    assert buf[..] == text + old(buf[..])[|text|..];
  }

  // ----- the two-phase calls

  /** The wrapper's sizing call: `requireLen` changes only when the library says the buffer is too small. */
  method SizeKeys(store: MetadataStore, requireLen: nat) returns (code: nat, required: nat)
    requires store.Valid()
    modifies store`misfits, store`faults
    ensures store.misfits == old(store.misfits) && store.faults == old(store.faults) + NewFaults(code)
    ensures code != VIX_OK && required == if code == VIX_E_BUFFER_TOOSMALL then |store.KeyList()| else requireLen
  {
    var none := new byte[0];
    var needed;
    code, needed := store.LibGetKeys(none, 0);
    required := if code == VIX_E_BUFFER_TOOSMALL then needed else requireLen;
  }

  method GetMetadataKeys(store: MetadataStore, buf: array<byte>, bufLen: nat) returns (code: nat)
    requires store.Valid() && 0 < bufLen <= buf.Length
    modifies buf, store`misfits, store`faults
    ensures store.misfits == old(store.misfits) + if bufLen == |store.KeyList()| then 0 else 1
    ensures store.faults == old(store.faults) + NewFaults(code) && (code == VIX_E_BUFFER_TOOSMALL ==> bufLen < |store.KeyList()|)
    ensures code == VIX_OK && bufLen == |store.KeyList()| == buf.Length ==> buf[..] == store.KeyList()
  {
    var ignored;
    code, ignored := store.LibGetKeys(buf, bufLen);
  }

  method SizeValue(store: MetadataStore, key: Text, requireLen: nat) returns (code: nat, required: nat)
    requires store.Valid() && NulFree(key)
    modifies store`misfits, store`faults
    ensures store.misfits == old(store.misfits) && store.faults == old(store.faults) + NewFaults(code) && code != VIX_OK
    ensures required == if code == VIX_E_BUFFER_TOOSMALL && key in store.table then |store.table[key]| + 1 else requireLen
    ensures code == VIX_E_BUFFER_TOOSMALL ==> key in store.table
  {
    var none := new byte[0];
    var needed;
    code, needed := store.LibRead(key, none, 0);
    required := if code == VIX_E_BUFFER_TOOSMALL then needed else requireLen;
  }

  method ReadMetadata(store: MetadataStore, key: Text, buf: array<byte>, bufLen: nat) returns (code: nat)
    requires store.Valid() && NulFree(key) && 0 < bufLen <= buf.Length
    modifies buf, store`misfits, store`faults
    ensures store.faults == old(store.faults) + NewFaults(code)
    ensures code == VIX_E_BUFFER_TOOSMALL ==> key in store.table && bufLen < |store.table[key]| + 1
    ensures key in store.table ==> store.misfits == old(store.misfits) + if bufLen == |store.table[key]| + 1 then 0 else 1
    ensures code == VIX_OK ==> key in store.table
    ensures code == VIX_OK && bufLen == |store.table[key]| + 1 == buf.Length ==> buf[..] == store.table[key] + [0]
  {
    var ignored;
    code, ignored := store.LibRead(key, buf, bufLen);
  }

  // ----- copying

  datatype SaveError = NoError | DiskHandle | Vix(code: nat)

  /** The table after the non-blank `keys` have been copied from `source`, in order. */
  function Copied(target: map<Text, Text>, source: map<Text, Text>, keys: seq<Text>): map<Text, Text>
    requires forall k :: 0 <= k < |keys| && !Blank(keys[k]) ==> keys[k] in source
  {
    if keys == [] then target
    else
      var key := keys[|keys| - 1];
      var before := Copied(target, source, keys[..|keys| - 1]);
      if Blank(key) then before else before[key := source[key]]
  }

  /** A table's entries with non-blank keys. */
  function NonBlank(m: map<Text, Text>): map<Text, Text> {
    map key | key in m && !Blank(key) :: m[key]
  }

  lemma {:induction false} CopiedAt(target: map<Text, Text>, source: map<Text, Text>, keys: seq<Text>, key: Text)
    requires forall k :: 0 <= k < |keys| && !Blank(keys[k]) ==> keys[k] in source
    ensures key in Copied(target, source, keys) <==> key in target || (key in keys && !Blank(key))
    ensures key in Copied(target, source, keys) ==>
      Copied(target, source, keys)[key] == if key in keys && !Blank(key) then source[key] else target[key]
  {
    if keys != [] {
      var init := keys[..|keys| - 1];
      assert keys == init + [keys[|keys| - 1]];
      CopiedAt(target, source, init, key);
    }
  }

  /** Copying every key is laying the non-blank part of the source over the target. */
  lemma CopiedIsUnion(target: map<Text, Text>, source: map<Text, Text>, keys: seq<Text>)
    requires forall key :: key in source <==> key in keys
    ensures Copied(target, source, keys) == target + NonBlank(source)
  {
    forall key
      ensures key in Copied(target, source, keys) <==> key in target + NonBlank(source)
      ensures key in Copied(target, source, keys) ==> Copied(target, source, keys)[key] == (target + NonBlank(source))[key]
    {
      CopiedAt(target, source, keys, key);
    }
  }

  /** Every key of the source that does not consist of white space is in the result as it is in the
      source, and every other key as it is in the target. */
  ghost predicate Overlaid(target: map<Text, Text>, source: map<Text, Text>, result: map<Text, Text>) {
    forall key ::
      if key in source && !SpacesOnly(key) then key in result && result[key] == source[key]
      else (key in result <==> key in target) && (key in result ==> result[key] == target[key])
  }

  /** In particular every key with a printable ASCII character in it is copied. */
  lemma PrintableIsCopied(target: map<Text, Text>, source: map<Text, Text>, result: map<Text, Text>, key: Text, k: nat)
    requires Overlaid(target, source, result) && key in source && k < |key| && 33 <= key[k] <= 126
    ensures key in result && result[key] == source[key]
  {
    PrintableIsKept(key, k);
  }

  lemma UnionMeans(target: map<Text, Text>, source: map<Text, Text>, result: map<Text, Text>)
    requires result == target + NonBlank(source)
    ensures Overlaid(target, source, result)
  {
    forall key
      ensures Blank(key) <==> SpacesOnly(key)
    {
      BlankExact(key);
    }
    hide Blank, SpacesOnly;
  }

  lemma ListedKeys(keys: seq<Text>)
    requires forall k :: 0 <= k < |keys| ==> NulFree(keys[k])
    ensures Split(Terminated(keys) + [0]).0 == keys + [[]]
  {
    hide Split, Terminated, IndexNul;
    var list: seq<Text> := keys + [[]];
    assert forall k :: 0 <= k < |list| ==> NulFree(list[k]);
    TerminatedMore(keys, []);
    SplitOfTerminated(list, []);
    assert Terminated(keys) + [] + [0] == Terminated(keys) + [0];
    assert Terminated(list) + [] == Terminated(list);
  }

  lemma {:induction false} TerminatedMore(keys: seq<Text>, key: Text)
    ensures Terminated(keys + [key]) == Terminated(keys) + key + [0]
  {
    if keys == [] {
      assert keys + [key] == [key] && [key][1..] == [];
      assert Terminated([key]) == key + [0] + Terminated([]);
    } else {
      TerminatedMore(keys[1..], key);
      assert (keys + [key])[1..] == keys[1..] + [key];
      assert keys[0] + [0] + (Terminated(keys[1..]) + key + [0]) == (keys[0] + [0] + Terminated(keys[1..])) + key + [0];
    }
  }

  /** A copy fails exactly if one of its library calls did, and with that call's code. */
  ghost predicate Reports(r0: seq<nat>, r1: seq<nat>, w0: seq<nat>, w1: seq<nat>, err: SaveError) {
    match err
    case Vix(code) => (r1 == r0 + [code] || r1 == r0) && (w1 == w0 + [code] || w1 == w0) && (r1 != r0 || w1 != w0)
    case _ => r1 == r0 && w1 == w0
  }

  /** One key of the loop: size, read, write. The two stores may be one. */
  method SaveKey(read: MetadataStore, write: MetadataStore, key: Text, requireLen: nat) returns (err: SaveError, required: nat)
    requires read.Valid() && write.Valid() && NulFree(key)
    modifies read`misfits, read`faults, write`keys, write`table, write`faults
    ensures write.Valid() && read.misfits == old(read.misfits) && err != DiskHandle
    ensures read.keys == old(read.keys) && read.table == old(read.table)
    ensures Reports(old(read.faults), read.faults, old(write.faults), write.faults, err)
    ensures err == NoError ==> key in read.table && write.table == old(write.table)[key := read.table[key]]
    ensures err != NoError ==> write.table == old(write.table)
  {
    hide Split, Terminated, Blank, SpaceLen, IndexNul;
    var code;
    code, required := SizeValue(read, key, requireLen);
    if code != VIX_OK && code != VIX_E_BUFFER_TOOSMALL {
      return Vix(code), required;
    }
    var bufLen := required;
    var buf := new byte[bufLen];
    code := ReadMetadata(read, key, buf, bufLen);
    if code != VIX_OK {
      return Vix(code), required;
    }
    FirstNul(read.table[key], []);
    assert buf[..] == read.table[key] + [0] + [];
    assert buf[..][..|read.table[key]|] == read.table[key];
    code := write.LibWrite(key, buf);
    if code != VIX_OK {
      return Vix(code), required;
    }
    return NoError, required;
  }

  ghost predicate SomeCopied(target: map<Text, Text>, result: map<Text, Text>, source: map<Text, Text>, keys: seq<Text>)
    requires forall k :: 0 <= k < |keys| && !Blank(keys[k]) ==> keys[k] in source
  {
    exists n :: 0 <= n <= |keys| && result == Copied(target, source, keys[..n])
  }

  lemma FirstCopied(target: map<Text, Text>, source: map<Text, Text>, keys: seq<Text>, n: nat)
    requires n <= |keys| && forall k :: 0 <= k < |keys| && !Blank(keys[k]) ==> keys[k] in source
    ensures SomeCopied(target, Copied(target, source, keys[..n]), source, keys)
    ensures n == |keys| ==> Copied(target, source, keys[..n]) == Copied(target, source, keys)
    ensures n == 0 ==> Copied(target, source, keys[..n]) == target
    ensures n < |keys| ==>
      var before := Copied(target, source, keys[..n]);
      Copied(target, source, keys[..n + 1]) == if Blank(keys[n]) then before else before[keys[n] := source[keys[n]]]
  {
    if n == |keys| {
      assert keys[..n] == keys;
    } else {
      assert keys[..n + 1][..n] == keys[..n];
    }
  }

  /** The loop over the listed keys, the last of which is empty. */
  method CopyKeys(read: MetadataStore, write: MetadataStore, keys: seq<Text>, requireLen: nat) returns (err: SaveError)
    requires read.Valid() && write.Valid() && keys == read.keys + [[]]
    modifies read`misfits, read`faults, write`keys, write`table, write`faults
    ensures write.Valid() && read.misfits == old(read.misfits) && err != DiskHandle
    ensures read.keys == old(read.keys) && read.table == old(read.table)
    ensures Reports(old(read.faults), read.faults, old(write.faults), write.faults, err)
    ensures err == NoError ==> write.table == Copied(old(write.table), read.table, read.keys)
    ensures err != NoError ==> SomeCopied(old(write.table), write.table, read.table, read.keys)
  {
    hide Copied, SomeCopied;
    ghost var before, source, listed := write.table, read.table, read.keys;
    FirstCopied(before, source, listed, 0);
    var required := requireLen;
    var i := 0;
    while i < |keys|
      invariant 0 <= i <= |keys|
      invariant read.Valid() && write.Valid() && read.misfits == old(read.misfits)
      invariant read.keys == listed && read.table == source
      invariant read.faults == old(read.faults) && write.faults == old(write.faults)
      invariant write.table == Copied(before, source, listed[..if i < |keys| then i else i - 1])
    {
      var key := keys[i];
      FirstCopied(before, source, listed, i);
      if !Blank(key) {
        var e;
        e, required := SaveKey(read, write, key, required);
        if e != NoError {
          return e;
        }
      }
      i := i + 1;
    }
    FirstCopied(before, source, listed, |listed|);
    return NoError;
  }

  /** The keys of a disk, and the empty one that its list ends with. */
  method ListKeys(read: MetadataStore) returns (code: nat, keys: seq<Text>, requireLen: nat)
    requires read.Valid()
    modifies read`misfits, read`faults
    ensures read.misfits == old(read.misfits) && read.faults == old(read.faults) + NewFaults(code)
    ensures code != VIX_E_BUFFER_TOOSMALL && (code == VIX_OK ==> keys == read.keys + [[]])
  {
    hide Terminated, Split;
    keys := [];
    code, requireLen := SizeKeys(read, 0);
    if code != VIX_OK && code != VIX_E_BUFFER_TOOSMALL {
      return;
    }
    var bufLen := requireLen;
    var buf := new byte[bufLen];
    code := GetMetadataKeys(read, buf, bufLen);
    if code != VIX_OK {
      return;
    }
    keys := NullTermToStrings(buf[..]);
    ListedKeys(read.keys);
  }

  /** `SaveMetaData`: success lays the source's non-blank entries over the target's table; an error
      leaves the target with the entries of the first keys listed. No read is ever given a buffer
      of another length than it needs. */
  method SaveMetaData(read: MetadataStore?, write: MetadataStore?) returns (err: SaveError)
    requires read != null ==> read.Valid()
    requires write != null ==> write.Valid()
    modifies read, write
    ensures err == DiskHandle <==> read == null || write == null
    ensures read != null ==> read.misfits == old(read.misfits) && read.keys == old(read.keys) && read.table == old(read.table)
    ensures write != null ==> write.Valid()
    ensures err == DiskHandle && write != null ==> write.table == old(write.table)
    ensures read != null && write != null ==> Reports(old(read.faults), read.faults, old(write.faults), write.faults, err)
    ensures err == NoError ==> write.table == old(write.table) + NonBlank(read.table)
    ensures err == NoError ==> Overlaid(old(write.table), read.table, write.table)
    ensures err.Vix? ==> SomeCopied(old(write.table), write.table, read.table, read.keys)
  {
    if read == null || write == null {
      return DiskHandle;
    }
    FirstCopied(write.table, read.table, read.keys, 0);
    CopiedIsUnion(write.table, read.table, read.keys);
    hide Copied, SomeCopied, NonBlank, Overlaid, SpacesOnly, Blank;
    var code, keys, requireLen := ListKeys(read);
    if code != VIX_OK {
      return Vix(code);
    }
    ghost var before := write.table;
    err := CopyKeys(read, write, keys, requireLen);
    if err == NoError {
      UnionMeans(before, read.table, write.table);
    }
  }
}
