/**
 * The path editor of the configuration document: reading, writing and deleting one place in a JSON
 * tree of objects and arrays. A refused write is modelled with whatever it had already changed.
 */
module ConfigPaths {
  import opened Common

  datatype Json =
    | Null
    | Bool(b: bool)
    | Number(n: int)
    | Str(s: string)
    | Arr(items: seq<Json>)
    | Obj(fields: map<string, Json>)

  // ---------------------------------------------------------------- paths

  /** The pieces of a text between separators. */
  function Split(s: string, sep: char): (r: seq<string>)
    ensures |r| > 0
  {
    if |s| == 0 then [""]
    else
      var rest := Split(s[1..], sep);
      if s[0] == sep then [""] + rest else [[s[0]] + rest[0]] + rest[1..]
  }

  function Unsplit(parts: seq<string>, sep: char): string
    requires |parts| > 0
  {
    if |parts| == 1 then parts[0] else parts[0] + [sep] + Unsplit(parts[1..], sep)
  }

  /** Splitting loses nothing and leaves no separator inside a part. */
  lemma {:induction false} SplitHolds(s: string, sep: char)
    ensures Unsplit(Split(s, sep), sep) == s
    ensures forall i :: 0 <= i < |Split(s, sep)| ==> sep !in Split(s, sep)[i]
  {
    if |s| > 0 {
      SplitHolds(s[1..], sep);
      var rest := Split(s[1..], sep);
      assert s == [s[0]] + s[1..];
      if s[0] == sep {
        assert ([""] + rest)[1..] == rest;
      } else {
        assert ([[s[0]] + rest[0]] + rest[1..])[1..] == rest[1..];
        if |rest| > 1 {
          var tail := Unsplit(rest[1..], sep);
          assert [s[0]] + (rest[0] + [sep] + tail) == ([s[0]] + rest[0]) + [sep] + tail;
        }
      }
    }
  }

  const FORBIDDEN: set<string> := {"__proto__", "prototype", "constructor"}

  /** `parseConfigPath`: dot-separated names, none empty and none forbidden. */
  function ParsePath(path: string): (r: Option<seq<string>>)
    ensures r.Some? ==> |r.value| > 0 && forall i :: 0 <= i < |r.value| ==> |r.value[i]| > 0 && r.value[i] !in FORBIDDEN
  {
    var parts := Split(path, '.');
    if exists i :: 0 <= i < |parts| && (|parts[i]| == 0 || parts[i] in FORBIDDEN) then None else Some(parts)
  }

  /** A name a path may hold. */
  predicate IsName(part: string) {
    |part| > 0 && '.' !in part && part !in FORBIDDEN
  }

  lemma {:induction false} SplitOfUnsplit(parts: seq<string>, sep: char)
    requires |parts| > 0 && forall i :: 0 <= i < |parts| ==> sep !in parts[i]
    ensures Split(Unsplit(parts, sep), sep) == parts
    decreases |parts|, |parts[0]|
  {
    var head := parts[0];
    if |head| > 0 {
      var shorter := [head[1..]] + parts[1..];
      assert shorter[1..] == parts[1..];
      SplitOfUnsplit(shorter, sep);
      UnsplitStep(parts, shorter, sep);
      assert head == [head[0]] + head[1..];
      assert parts == [head] + parts[1..];
    } else if |parts| > 1 {
      SplitOfUnsplit(parts[1..], sep);
      assert head == "" && head + [sep] == [sep];
      assert Unsplit(parts, sep) == [sep] + Unsplit(parts[1..], sep);
      assert parts == [""] + parts[1..];
    } else {
      assert parts == [""];
    }
  }

  lemma {:induction false} UnsplitStep(parts: seq<string>, shorter: seq<string>, sep: char)
    requires |parts| == |shorter| > 0 && parts[1..] == shorter[1..] && |parts[0]| > 0 && shorter[0] == parts[0][1..]
    ensures Unsplit(parts, sep) == [parts[0][0]] + Unsplit(shorter, sep)
  {
    assert parts[0] == [parts[0][0]] + parts[0][1..];
  }

  /** A text is a path of some names exactly when it is those names with dots between them. */
  lemma {:induction false} ParsesExactlyTheNames(path: string, parts: seq<string>)
    ensures ParsePath(path) == Some(parts)
            <==> |parts| > 0 && (forall i :: 0 <= i < |parts| ==> IsName(parts[i])) && path == Unsplit(parts, '.')
  {
    hide Split, Unsplit;
    SplitHolds(path, '.');
    if |parts| > 0 && (forall i :: 0 <= i < |parts| ==> IsName(parts[i])) && path == Unsplit(parts, '.') {
      SplitOfUnsplit(parts, '.');
    }
  }

  predicate Digit(c: char) {
    '0' <= c <= '9'
  }

  function DigitValue(c: char): nat
    requires Digit(c)
  {
    c as int - '0' as int
  }

  function Value(digits: string): nat
    requires forall i :: 0 <= i < |digits| ==> Digit(digits[i])
  {
    if |digits| == 0 then 0 else 10 * Value(digits[..|digits| - 1]) + DigitValue(digits[|digits| - 1])
  }

  /** `arrayIndexPart`: plain decimal digits without a leading zero. */
  function IndexPart(part: string): Option<nat> {
    if |part| > 0 && (forall i :: 0 <= i < |part| ==> Digit(part[i])) && (part[0] != '0' || |part| == 1)
    then Some(Value(part)) else None
  }

  lemma {:induction false} ValueBounds(d: string)
    requires |d| > 0 && (forall i :: 0 <= i < |d| ==> Digit(d[i])) && (d[0] != '0' || |d| == 1)
    ensures |d| > 1 ==> Value(d) >= 10
    ensures Value(d) == 0 ==> d == "0"
  {
    var init := d[..|d| - 1];
    if |d| > 1 {
      if |init| > 1 {
        ValueBounds(init);
      } else {
        assert init == [d[0]];
        OneDigit(init);
      }
    } else {
      OneDigit(d);
      assert d == [d[0]];
    }
  }

  lemma OneDigit(d: string)
    requires |d| == 1 && Digit(d[0])
    ensures Value(d) == DigitValue(d[0])
  {
    assert d[..0] == [];
    assert Value([]) == 0;
  }

  /** Two different segments never name the same element: `01` is a name, not an index. */
  lemma {:induction false} IndexPartInjective(a: string, b: string)
    requires IndexPart(a).Some? && IndexPart(a) == IndexPart(b)
    ensures a == b
    decreases |a|
  {
    if |a| == 1 {
      OneDigit(a);
      if |b| > 1 { ValueBounds(b); } else { OneDigit(b); assert a == [a[0]] && b == [b[0]]; }
    } else {
      ValueBounds(a);
      if |b| == 1 {
        OneDigit(b);
      } else {
        var x, y := a[..|a| - 1], b[..|b| - 1];
        assert a == x + [a[|a| - 1]] && b == y + [b[|b| - 1]];
        assert Value(x) == Value(y);
        IndexPartInjective(x, y);
      }
    }
  }

  // ---------------------------------------------------------------- reading

  /** The element or field a segment addresses, if it is there. */
  function Child(j: Json, part: string): Option<Json> {
    match j
    case Arr(items) =>
      if IndexPart(part).Some? && IndexPart(part).value < |items| then Some(items[IndexPart(part).value]) else None
    case Obj(fields) => if part in fields then Some(fields[part]) else None
    case _ => None
  }

  function Read(j: Json, parts: seq<string>): Option<Json> {
    if |parts| == 0 then Some(j)
    else
      var c := Child(j, parts[0]);
      if c.None? then None else Read(c.value, parts[1..])
  }

  /** What an operation given a text path comes to: nothing at all when the text is no path. */
  datatype Asked<T> = BadPath | Answered(answer: T)

  /** `readConfigPath`. */
  method ReadConfigPath(document: Json, path: string) returns (value: Asked<Option<Json>>)
    ensures value == if ParsePath(path).None? then BadPath else Answered(Read(document, ParsePath(path).value))
  {
    if ParsePath(path).None? { return BadPath; }
    var parts, current, i := ParsePath(path).value, document, 0;
    while i < |parts|
      invariant 0 <= i <= |parts| && Read(document, parts) == Read(current, parts[i..])
    {
      var c := Child(current, parts[i]);
      if c.None? { return Answered(None); }
      assert parts[i..][1..] == parts[i + 1..];
      current, i := c.value, i + 1;
    }
    return Answered(Some(current));
  }

  // ---------------------------------------------------------------- writing

  /** A document with one child replaced; only a present element or any field can be. */
  function WithChild(j: Json, part: string, c: Json): Json {
    match j
    case Arr(items) =>
      if IndexPart(part).Some? && IndexPart(part).value < |items| then Arr(items[IndexPart(part).value := c]) else j
    case Obj(fields) => Obj(fields[part := c])
    case _ => j
  }

  datatype Edited = Edited(document: Json, ok: bool)

  /** An element can be written where it is, a field anywhere in an object, nothing else. */
  predicate Holds(j: Json, part: string) {
    j.Obj? || (j.Arr? && IndexPart(part).Some? && IndexPart(part).value < |j.items|)
  }

  predicate IsContainer(j: Json) {
    j.Arr? || j.Obj?
  }

  /**
   * `writeConfigPath` on a parsed path, with what it leaves behind when it is refused: a missing
   * field on the way is created before the walk goes on.
   */
  function Write(j: Json, parts: seq<string>, v: Json): Edited
    requires |parts| > 0
    decreases |parts|
  {
    if !Holds(j, parts[0]) then Edited(j, false)
    else if |parts| == 1 then Edited(WithChild(j, parts[0], v), true)
    else
      var c := Child(j, parts[0]);
      if c.Some? && j.Obj? && !IsContainer(c.value) then Edited(j, false)
      else
        var created := WithChild(j, parts[0], if c.Some? then c.value else Obj(map[]));
        var r := Write(Child(created, parts[0]).value, parts[1..], v);
        Edited(WithChild(created, parts[0], r.document), r.ok)
  }

  /** What a caller can check beforehand: every value the path walks through lets it go on. */
  predicate Writable(j: Json, parts: seq<string>) {
    forall k :: 0 <= k < |parts| && Read(j, parts[..k]).Some? ==> Holds(Read(j, parts[..k]).value, parts[k])
  }

  /** Two paths that part ways: neither runs through the other. */
  predicate Apart(p: seq<string>, q: seq<string>) {
    exists k :: 0 <= k < |p| && k < |q| && p[..k] == q[..k] && p[k] != q[k]
  }

  lemma {:induction false} ChildOfWith(j: Json, part: string, c: Json, other: string)
    requires Holds(j, part)
    ensures Child(WithChild(j, part, c), part) == Some(c)
    ensures other != part ==> Child(WithChild(j, part, c), other) == Child(j, other)
    ensures Holds(WithChild(j, part, c), other) <==> Holds(j, other)
  {
    if j.Arr? && other != part && IndexPart(other).Some? && IndexPart(other) == IndexPart(part) {
      IndexPartInjective(other, part);
    }
  }

  lemma SameChild(j: Json, part: string)
    requires Child(j, part).Some?
    ensures Holds(j, part) && WithChild(j, part, Child(j, part).value) == j
  {
  }

  /** A write is accepted exactly when it is writable, and a refused one leaves the document as it was. */
  lemma {:induction false} WriteAcceptedExactlyWhen(j: Json, parts: seq<string>, v: Json)
    requires |parts| > 0
    ensures Write(j, parts, v).ok <==> Writable(j, parts)
    ensures !Write(j, parts, v).ok ==> Write(j, parts, v).document == j
    decreases |parts|
  {
    hide IndexPart;
    assert parts[..0] == [];
    assert Read(j, []) == Some(j);
    if Holds(j, parts[0]) {
      if |parts| > 1 {
        var c := Child(j, parts[0]);
        var start := if c.Some? then c.value else Obj(map[]);
        ChildOfWith(j, parts[0], start, parts[0]);
        WriteAcceptedExactlyWhen(start, parts[1..], v);
        if c.Some? { SameChild(j, parts[0]); }
        WritableStep(j, parts);
        if c.None? { FreshIsWritable(parts[1..]); }
        if c.Some? && !IsContainer(c.value) { NotThroughAValue(c.value, parts[1..]); }
        if c.Some? { SameChild(j, parts[0]); }
      } else {
        assert Writable(j, parts);
      }
    } else {
      assert !Writable(j, parts);
    }
  }

  lemma NotThroughAValue(j: Json, parts: seq<string>)
    requires !IsContainer(j) && |parts| > 0
    ensures !Writable(j, parts)
  {
    assert parts[..0] == [] && Read(j, []) == Some(j);
    assert !Holds(j, parts[0]);
  }

  lemma {:induction false} FreshIsWritable(parts: seq<string>)
    ensures Writable(Obj(map[]), parts)
  {
    forall k | 0 < k < |parts| ensures Read(Obj(map[]), parts[..k]).None? {
      assert Child(Obj(map[]), parts[..k][0]).None?;
    }
  }

  /** The values along a path are the first one and those along its rest. */
  lemma {:induction false} WritableStep(j: Json, parts: seq<string>)
    requires |parts| > 1
    ensures Writable(j, parts)
            <==> Holds(j, parts[0]) && (Child(j, parts[0]).Some? ==> Writable(Child(j, parts[0]).value, parts[1..]))
  {
    hide Holds, IndexPart;
    assert parts[..0] == [] && Read(j, []) == Some(j);
    var c := Child(j, parts[0]);
    forall k | 0 < k < |parts|
      ensures Read(j, parts[..k]) == if c.Some? then Read(c.value, parts[1..][..k - 1]) else None
    {
      assert parts[..k][1..] == parts[1..][..k - 1];
    }
    if Writable(j, parts) {
      if c.Some? {
        forall k | 0 <= k < |parts[1..]| && Read(c.value, parts[1..][..k]).Some?
          ensures Holds(Read(c.value, parts[1..][..k]).value, parts[1..][k])
        {
          assert Read(j, parts[..k + 1]) == Read(c.value, parts[1..][..k]);
        }
      }
    } else {
      var k :| 0 <= k < |parts| && Read(j, parts[..k]).Some? && !Holds(Read(j, parts[..k]).value, parts[k]);
      if k > 0 { assert parts[1..][k - 1] == parts[k]; }
    }
  }

  // ---------------------------------------------------------------- lens laws

  /** What was written is read back. */
  lemma {:induction false} WriteThenRead(j: Json, parts: seq<string>, v: Json)
    requires |parts| > 0 && Write(j, parts, v).ok
    ensures Read(Write(j, parts, v).document, parts) == Some(v)
    decreases |parts|
  {
    hide IndexPart;
    ChildOfWith(j, parts[0], v, parts[0]);
    if |parts| > 1 {
      var c := Child(j, parts[0]);
      var start := if c.Some? then c.value else Obj(map[]);
      ChildOfWith(j, parts[0], start, parts[0]);
      var created := WithChild(j, parts[0], start);
      WriteThenRead(start, parts[1..], v);
      ChildOfWith(created, parts[0], Write(start, parts[1..], v).document, parts[0]);
    } else {
      assert Read(v, parts[1..]) == Some(v);
    }
  }

  /** Every path that parts ways with the written one reads as before. */
  lemma {:induction false} WriteLeavesTheRest(j: Json, parts: seq<string>, v: Json, q: seq<string>)
    requires |parts| > 0 && Apart(parts, q)
    ensures Read(Write(j, parts, v).document, q) == Read(j, q)
    decreases |parts|
  {
    hide IndexPart;
    var k :| 0 <= k < |parts| && k < |q| && parts[..k] == q[..k] && parts[k] != q[k];
    if Holds(j, parts[0]) {
      if k == 0 {
        OtherChildKept(j, parts, v, q[0]);
      } else {
        assert parts[0] == parts[..k][0] == q[..k][0] == q[0];
        ApartRest(parts, q, k);
        var c := Child(j, parts[0]);
        var start := if c.Some? then c.value else Obj(map[]);
        ChildOfWith(j, parts[0], start, parts[0]);
        var created := WithChild(j, parts[0], start);
        if !(c.Some? && j.Obj? && !IsContainer(c.value)) {
          WriteLeavesTheRest(start, parts[1..], v, q[1..]);
          ChildOfWith(created, parts[0], Write(start, parts[1..], v).document, parts[0]);
          if c.None? { NothingInFresh(q[1..]); }
        }
      }
    }
  }

  lemma ApartRest(p: seq<string>, q: seq<string>, k: nat)
    requires 0 < k < |p| && k < |q| && p[..k] == q[..k] && p[k] != q[k]
    ensures Apart(p[1..], q[1..])
  {
    assert p[1..][..k - 1] == p[..k][1..] && q[1..][..k - 1] == q[..k][1..];
    assert p[1..][k - 1] != q[1..][k - 1];
  }

  lemma NothingInFresh(q: seq<string>)
    requires |q| > 0
    ensures Read(Obj(map[]), q).None?
  {
  }

  lemma {:induction false} OtherChildKept(j: Json, parts: seq<string>, v: Json, other: string)
    requires |parts| > 0 && other != parts[0]
    ensures Child(Write(j, parts, v).document, other) == Child(j, other)
  {
    hide IndexPart;
    if Holds(j, parts[0]) {
      ChildOfWith(j, parts[0], v, other);
      if |parts| > 1 {
        var c := Child(j, parts[0]);
        var start := if c.Some? then c.value else Obj(map[]);
        ChildOfWith(j, parts[0], start, other);
        ChildOfWith(WithChild(j, parts[0], start), parts[0], Write(start, parts[1..], v).document, other);
      }
    }
  }

  /** Writing back what was read changes nothing. */
  lemma {:induction false} ReadThenWrite(j: Json, parts: seq<string>)
    requires |parts| > 0 && Read(j, parts).Some?
    ensures Write(j, parts, Read(j, parts).value) == Edited(j, true)
    decreases |parts|
  {
    hide IndexPart;
    SameChild(j, parts[0]);
    if |parts| > 1 {
      var c := Child(j, parts[0]).value;
      ReadThenWrite(c, parts[1..]);
      ReadThroughContainer(c, parts[1..]);
    } else {
      assert parts[1..] == [];
    }
  }

  lemma ReadThroughContainer(j: Json, parts: seq<string>)
    requires |parts| > 0 && Read(j, parts).Some?
    ensures IsContainer(j)
  {
  }

  /** The second of two writes to one place is the one that counts. */
  lemma {:induction false} WriteTwice(j: Json, parts: seq<string>, v: Json, w: Json)
    requires |parts| > 0 && Write(j, parts, v).ok
    ensures Write(Write(j, parts, v).document, parts, w) == Write(j, parts, w)
    decreases |parts|
  {
    hide IndexPart;
    ChildOfWith(j, parts[0], v, parts[0]);
    if |parts| > 1 {
      var c := Child(j, parts[0]);
      var start := if c.Some? then c.value else Obj(map[]);
      ChildOfWith(j, parts[0], start, parts[0]);
      var created := WithChild(j, parts[0], start);
      var inner := Write(start, parts[1..], v).document;
      WriteTwice(start, parts[1..], v, w);
      ChildOfWith(created, parts[0], inner, parts[0]);
      StaysContainer(start, parts[1..], v);
      WithTwice(created, parts[0], inner, inner);
      WithTwice(created, parts[0], inner, Write(inner, parts[1..], w).document);
    } else {
      WithTwice(j, parts[0], v, w);
    }
  }

  lemma WithTwice(j: Json, part: string, c: Json, d: Json)
    ensures WithChild(WithChild(j, part, c), part, d) == WithChild(j, part, d)
  {
    hide IndexPart;
  }

  lemma StaysContainer(j: Json, parts: seq<string>, v: Json)
    requires |parts| > 0 && Write(j, parts, v).ok
    ensures IsContainer(Write(j, parts, v).document)
  {
    hide IndexPart;
  }

  // ---------------------------------------------------------------- deleting

  /** A container without one child: an array closes the gap. */
  function WithoutChild(j: Json, part: string): Json {
    match j
    case Arr(items) =>
      if IndexPart(part).Some? && IndexPart(part).value < |items|
      then Arr(items[..IndexPart(part).value] + items[IndexPart(part).value + 1..]) else j
    case Obj(fields) => Obj(fields - {part})
    case _ => j
  }

  /** `deleteConfigPath` on a parsed path. */
  function Delete(j: Json, parts: seq<string>): Edited
    requires |parts| > 0
    decreases |parts|
  {
    var c := Child(j, parts[0]);
    if c.None? then Edited(j, false)
    else if |parts| == 1 then Edited(WithoutChild(j, parts[0]), true)
    else
      var r := Delete(c.value, parts[1..]);
      Edited(WithChild(j, parts[0], r.document), r.ok)
  }

  /**
   * Deleting answers true exactly when the path was there. Then its container has lost that child
   * and nothing else: a key is gone, or an array is shorter by that element with the rest shifted.
   * Otherwise the document is as it was.
   */
  lemma {:induction false} DeleteRemovesExactlyThePath(j: Json, parts: seq<string>)
    requires |parts| > 0
    ensures Delete(j, parts).ok <==> Read(j, parts).Some?
    ensures !Delete(j, parts).ok ==> Delete(j, parts).document == j
    ensures Delete(j, parts).ok ==>
              var above := parts[..|parts| - 1];
              && Read(j, above).Some?
              && Read(Delete(j, parts).document, above) == Some(WithoutChild(Read(j, above).value, parts[|parts| - 1]))
    decreases |parts|
  {
    hide IndexPart;
    var c := Child(j, parts[0]);
    if c.Some? {
      SameChild(j, parts[0]);
      if |parts| > 1 {
        DeleteRemovesExactlyThePath(c.value, parts[1..]);
        var r := Delete(c.value, parts[1..]);
        ChildOfWith(j, parts[0], r.document, parts[0]);
        var above := parts[..|parts| - 1];
        assert above[1..] == parts[1..][..|parts[1..]| - 1];
        assert parts[1..][|parts[1..]| - 1] == parts[|parts| - 1];
      } else {
        assert parts[..0] == [];
        assert Read(c.value, parts[1..]) == Some(c.value);
      }
    }
  }

  /** What a removed child leaves: an object without the key, an array with the rest shifted. */
  lemma WithoutChildMeans(j: Json, part: string, other: string)
    requires Child(j, part).Some?
    ensures j.Obj? ==> Child(WithoutChild(j, part), part).None?
                       && (other != part ==> Child(WithoutChild(j, part), other) == Child(j, other))
    ensures j.Arr? ==> WithoutChild(j, part).Arr?
                       && var (gone, left) := (IndexPart(part).value, WithoutChild(j, part).items);
                          && |left| == |j.items| - 1
                          && forall i :: 0 <= i < |left| ==> left[i] == if i < gone then j.items[i] else j.items[i + 1]
  {
  }

  /** Paths that part ways with the deleted one above its container, or inside an object, read as before. */
  lemma {:induction false} DeleteLeavesTheRest(j: Json, parts: seq<string>, q: seq<string>, k: nat)
    requires |parts| > 0 && k < |parts| && k < |q| && parts[..k] == q[..k] && parts[k] != q[k]
    requires k < |parts| - 1 || (Read(j, parts[..k]).Some? ==> !Read(j, parts[..k]).value.Arr?)
    ensures Read(Delete(j, parts).document, q) == Read(j, q)
    decreases |parts|
  {
    hide IndexPart;
    var c := Child(j, parts[0]);
    if c.Some? {
      SameChild(j, parts[0]);
      if k == 0 {
        if |parts| > 1 {
          ChildOfWith(j, parts[0], Delete(c.value, parts[1..]).document, q[0]);
        } else {
          assert parts[..0] == [] && Read(j, []) == Some(j);
        }
      } else {
        assert parts[0] == parts[..k][0] == q[..k][0] == q[0];
        assert parts[..k][1..] == parts[1..][..k - 1] && q[..k][1..] == q[1..][..k - 1];
        DeleteLeavesTheRest(c.value, parts[1..], q[1..], k - 1);
        ChildOfWith(j, parts[0], Delete(c.value, parts[1..]).document, parts[0]);
      }
    }
  }

  /** Deleting a key that a write had just added takes the write back. */
  lemma {:induction false} DeleteUndoesAnAddedKey(j: Json, parts: seq<string>, v: Json)
    requires |parts| > 0 && Read(j, parts).None?
    requires Read(j, parts[..|parts| - 1]).Some? && Read(j, parts[..|parts| - 1]).value.Obj?
    ensures Write(j, parts, v).ok && Delete(Write(j, parts, v).document, parts) == Edited(j, true)
    decreases |parts|
  {
    hide IndexPart;
    if |parts| == 1 {
      assert parts[..0] == [] && Read(j, []) == Some(j);
      assert Read(v, parts[1..]) == Some(v);
      assert parts[1..] == [];
      assert j.fields[parts[0] := v] - {parts[0]} == j.fields;
    } else {
      var above := parts[..|parts| - 1];
      assert above[0] == parts[0];
      var c := Child(j, parts[0]).value;
      assert above[1..] == parts[1..][..|parts[1..]| - 1];
      SameChild(j, parts[0]);
      DeleteUndoesAnAddedKey(c, parts[1..], v);
      StaysContainer(c, parts[1..], v);
      var inner := Write(c, parts[1..], v).document;
      ChildOfWith(j, parts[0], inner, parts[0]);
      WithTwice(j, parts[0], inner, c);
      IsThrough(c, parts[1..]);
    }
  }

  lemma IsThrough(j: Json, parts: seq<string>)
    requires |parts| > 0 && Read(j, parts[..|parts| - 1]).Some? && Read(j, parts[..|parts| - 1]).value.Obj?
    ensures IsContainer(j)
  {
    if |parts| == 1 { assert parts[..0] == []; }
  }

  // ---------------------------------------------------------------- by text

  /** `writeConfigPath`. */
  function WriteConfigPath(document: Json, path: string, v: Json): Asked<Edited> {
    if ParsePath(path).None? then BadPath else Answered(Write(document, ParsePath(path).value, v))
  }

  /** `deleteConfigPath`. */
  function DeleteConfigPath(document: Json, path: string): Asked<Edited> {
    if ParsePath(path).None? then BadPath else Answered(Delete(document, ParsePath(path).value))
  }

  /**
   * Two texts that are paths and neither of which runs through the other: an edit through one, be it
   * accepted, refused or no path at all, is not seen through the other.
   */
  lemma {:induction false} TextsApartDoNotInterfere(document: Json, path: string, other: string, v: Json)
    requires ParsePath(path).Some? && ParsePath(other).Some?
    requires !(path + "." <= other + ".") && !(other + "." <= path + ".")
    ensures Read(WriteConfigPath(document, path, v).answer.document, ParsePath(other).value)
            == Read(document, ParsePath(other).value)
  {
    hide Write, Read, ParsePath, Split;
    var p, q := ParsePath(path).value, ParsePath(other).value;
    ParsesExactlyTheNames(path, p);
    ParsesExactlyTheNames(other, q);
    TextsPart(p, q);
    WriteLeavesTheRest(document, p, v, q);
  }

  /** Lists of names part ways unless the text of one begins the text of the other. */
  lemma {:induction false} TextsPart(p: seq<string>, q: seq<string>)
    requires |p| > 0 && |q| > 0
    ensures Apart(p, q) || Unsplit(p, '.') + "." <= Unsplit(q, '.') + "."
            || Unsplit(q, '.') + "." <= Unsplit(p, '.') + "."
  {
    if p[0] != q[0] {
      assert p[..0] == q[..0] && Apart(p, q);
    } else if |p| == 1 {
      Begins(p, q);
    } else if |q| == 1 {
      Begins(q, p);
    } else {
      TextsPart(p[1..], q[1..]);
      if Apart(p[1..], q[1..]) {
        var k :| 0 <= k < |p[1..]| && k < |q[1..]| && p[1..][..k] == q[1..][..k] && p[1..][k] != q[1..][k];
        assert p[..k + 1] == [p[0]] + p[1..][..k] && q[..k + 1] == [q[0]] + q[1..][..k];
        assert p[k + 1] != q[k + 1];
      } else {
        Prefixed(p[0], Unsplit(p[1..], '.'), Unsplit(q[1..], '.'));
        Prefixed(p[0], Unsplit(q[1..], '.'), Unsplit(p[1..], '.'));
      }
    }
  }

  lemma Prefixed(head: string, x: string, y: string)
    ensures x + "." <= y + "." ==> head + ['.'] + x + "." <= head + ['.'] + y + "."
  {
    if x + "." <= y + "." {
      assert head + ['.'] + x + "." == (head + ['.']) + (x + ".");
      assert head + ['.'] + y + "." == (head + ['.']) + (y + ".");
    }
  }

  lemma Begins(p: seq<string>, q: seq<string>)
    requires |p| == 1 && |q| > 0 && p[0] == q[0]
    ensures Unsplit(p, '.') + "." <= Unsplit(q, '.') + "."
  {
  }
}
