/**
 The node's key-value state machine (src/node.rs): what a committed command does to the map,
 what it answers, and snapshot and restore. A hash map may be walked in any order, so a key
 listing and a snapshot are any enumeration of the map.
 */
module KeyValueMachine {
  import opened Wrappers
  import opened KeyOrder

  type Store = map<string, string>

  datatype KeyValueOp =
    | Set(key: string, value: string)
    | Get(key: string)
    | Delete(key: string)
    | ListKeys(prefix: Option<string>)

  datatype ProposalData = KeyValue(op: KeyValueOp) | Raw(bytes: seq<bv8>) | Text(text: string) | Noop

  /** A log entry; `data` is None for the empty entries a new leader appends. */
  datatype Entry = Entry(data: Option<ProposalData>, context: string)

  function ApplyTo(m: Store, d: ProposalData): Store {
    match d
    case KeyValue(Set(k, v)) => m[k := v]
    case KeyValue(Delete(k)) => m - {k}
    case _ => m
  }

  function Matching(m: Store, prefix: Option<string>): set<string> {
    set k | k in m && (prefix.Some? ==> prefix.value <= k)
  }

  /** `keys` lists `s`, each element once, in whatever order. */
  ghost predicate Enumerates(keys: seq<string>, s: set<string>) {
    && (forall i, j :: 0 <= i < j < |keys| ==> keys[i] != keys[j])
    && (forall k :: k in keys <==> k in s)
  }

  function Join(keys: seq<string>): string {
    if keys == [] then ""
    else if |keys| == 1 then keys[0]
    else Join(keys[..|keys| - 1]) + "\n" + keys[|keys| - 1]
  }

  /** The answers a command may get in state `m`; only a listing has more than one. */
  ghost predicate ReplyFits(m: Store, d: ProposalData, reply: string) {
    match d
    case KeyValue(Set(_, _)) => reply == "ok"
    case KeyValue(Delete(k)) => reply == if k in m then "deleted" else "not_found"
    case KeyValue(Get(k)) => reply == if k in m then m[k] else ""
    case KeyValue(ListKeys(prefix)) => exists keys :: Enumerates(keys, Matching(m, prefix)) && reply == Join(keys)
    case _ => reply == "ack"
  }

  function ApplyEntryTo(m: Store, e: Entry): Store {
    if e.data.Some? then ApplyTo(m, e.data.value) else m
  }

  /** The state after a stretch of log, from state `m`. */
  function Replay(m: Store, log: seq<Entry>): Store {
    if log == [] then m else ApplyEntryTo(Replay(m, log[..|log| - 1]), log[|log| - 1])
  }

  lemma {:induction false} ReplayAppend(m: Store, a: seq<Entry>, b: seq<Entry>)
    ensures Replay(m, a + b) == Replay(Replay(m, a), b)
  {
    if b == [] {
      assert a + b == a;
    } else {
      assert (a + b)[..|a + b| - 1] == a + b[..|b| - 1];
      ReplayAppend(m, a, b[..|b| - 1]);
    }
  }

  /** The last write to a key, read off the log from its end. */
  function LastWrite(m: Store, log: seq<Entry>, k: string): Option<string> {
    if log == [] then (if k in m then Some(m[k]) else None)
    else
      match log[|log| - 1].data
      case Some(KeyValue(Set(key, v))) => if key == k then Some(v) else LastWrite(m, log[..|log| - 1], k)
      case Some(KeyValue(Delete(key))) => if key == k then None else LastWrite(m, log[..|log| - 1], k)
      case _ => LastWrite(m, log[..|log| - 1], k)
  }

  /** The replayed map holds the last write of every key, and a read answers with it. */
  lemma {:induction false} ReplayHoldsLastWrites(m: Store, log: seq<Entry>, k: string, reply: string)
    ensures k in Replay(m, log) <==> LastWrite(m, log, k).Some?
    ensures k in Replay(m, log) ==> Replay(m, log)[k] == LastWrite(m, log, k).value
    ensures ReplyFits(Replay(m, log), KeyValue(Get(k)), reply) <==>
              reply == if LastWrite(m, log, k).Some? then LastWrite(m, log, k).value else ""
    ensures ReplyFits(Replay(m, log), KeyValue(Delete(k)), reply) <==>
              reply == if LastWrite(m, log, k).Some? then "deleted" else "not_found"
  {
    if log != [] {
      ReplayHoldsLastWrites(m, log[..|log| - 1], k, reply);
    }
  }

  // ---------------------------------------------------------------- listings

  predicate Plain(key: string) {
    '\n' !in key
  }

  /** The text cut at every newline. */
  function Lines(text: string): (lines: seq<string>)
    ensures lines != []
  {
    if text == "" then [""]
    else
      var lines, c := Lines(text[..|text| - 1]), text[|text| - 1];
      if c == '\n' then lines + [""] else lines[..|lines| - 1] + [lines[|lines| - 1] + [c]]
  }

  /** Text without a newline goes on with the last line. */
  lemma {:induction false} LinesGoOn(text: string, key: string)
    requires Plain(key)
    ensures var lines := Lines(text); Lines(text + key) == lines[..|lines| - 1] + [lines[|lines| - 1] + key]
    decreases |key|
  {
    var lines := Lines(text);
    if key == "" {
      assert text + key == text && lines[|lines| - 1] + key == lines[|lines| - 1];
    } else {
      var front, c := key[..|key| - 1], key[|key| - 1];
      LinesGoOn(text, front);
      assert (text + key)[..|text + key| - 1] == text + front && key == front + [c];
      assert lines[|lines| - 1] + key == lines[|lines| - 1] + front + [c];
    }
  }

  lemma LinesNext(text: string, key: string)
    requires Plain(key)
    ensures Lines(text + "\n" + key) == Lines(text) + [key]
  {
    assert (text + "\n")[..|text|] == text;
    LinesGoOn(text + "\n", key);
    assert "" + key == key;
  }

  lemma LinesOfOne(key: string)
    requires Plain(key)
    ensures Lines(Join([key])) == [key]
  {
    LinesGoOn("", key);
    assert "" + key == key;
  }

  lemma LinesOfOneMore(front: seq<string>, last: string)
    requires front != [] && Plain(last)
    ensures Lines(Join(front + [last])) == Lines(Join(front)) + [last]
  {
    assert (front + [last])[..|front|] == front;
    LinesNext(Join(front), last);
  }

  /** The lines of joined keys are the keys, if there are any and none has a line break of its own. */
  lemma {:induction false} LinesOfJoin(keys: seq<string>)
    requires keys != [] && forall i :: 0 <= i < |keys| ==> Plain(keys[i])
    ensures Lines(Join(keys)) == keys
  {
    var front, last := keys[..|keys| - 1], keys[|keys| - 1];
    assert keys == front + [last];
    if front == [] {
      LinesOfOne(last);
    } else {
      LinesOfJoin(front);
      LinesOfOneMore(front, last);
    }
  }

  ghost predicate AllPlain(m: Store) {
    forall k :: k in m ==> Plain(k)
  }

  lemma ListingIsLines(m: Store, prefix: Option<string>, reply: string)
    requires AllPlain(m) && ReplyFits(m, KeyValue(ListKeys(prefix)), reply)
    ensures Matching(m, prefix) == {} ==> reply == ""
    ensures Matching(m, prefix) != {} ==> Enumerates(Lines(reply), Matching(m, prefix))
  {
    var keys :| Enumerates(keys, Matching(m, prefix)) && reply == Join(keys);
    if keys == [] {
      assert forall k :: k !in Matching(m, prefix);
    } else {
      assert forall i :: 0 <= i < |keys| ==> keys[i] in Matching(m, prefix);
      assert keys[0] in Matching(m, prefix);
      LinesOfJoin(keys);
    }
  }

  /**
   What a listing tells about the log: with no line break in any key, its lines are, each once,
   the keys whose last write is not a delete and that start with the prefix; the empty answer
   stands for no key as well as for the empty key alone.
   */
  lemma ListingNamesKeys(m: Store, log: seq<Entry>, prefix: Option<string>, reply: string)
    requires AllPlain(Replay(m, log)) && ReplyFits(Replay(m, log), KeyValue(ListKeys(prefix)), reply)
    ensures forall i, j :: 0 <= i < j < |Lines(reply)| ==> Lines(reply)[i] != Lines(reply)[j]
    ensures forall k :: k in Lines(reply) && (reply != "" || k != "") ==>
              LastWrite(m, log, k).Some? && (prefix.Some? ==> StartsWith(k, prefix.value))
    ensures forall k :: LastWrite(m, log, k).Some? && (prefix.Some? ==> StartsWith(k, prefix.value)) ==>
              k in Lines(reply)
  {
    var data := Replay(m, log);
    forall k ensures k in Matching(data, prefix) <==>
                       LastWrite(m, log, k).Some? && (prefix.Some? ==> StartsWith(k, prefix.value)) {
      ReplayHoldsLastWrites(m, log, k, "");
      if prefix.Some? {
        PrefixIsStartsWith(k, prefix.value);
      }
    }
    ListingIsLines(data, prefix, reply);
  }

  lemma OneEnumeration(a: set<string>, b: set<string>, keys: seq<string>)
    requires Enumerates(keys, a) && Enumerates(keys, b)
    ensures a == b
  {
  }

  lemma {:induction false} EnumerationExists(s: set<string>) returns (keys: seq<string>)
    ensures Enumerates(keys, s)
    decreases s
  {
    if s == {} {
      keys := [];
    } else {
      var k :| k in s;
      var rest := EnumerationExists(s - {k});
      keys := rest + [k];
    }
  }

  lemma EmptyText(s: set<string>) returns (keys: seq<string>)
    requires s <= {""}
    ensures Enumerates(keys, s) && Join(keys) == ""
  {
    keys := if "" in s then [""] else [];
  }

  /**
   The text of a listing determines the listed keys, up to no key at all against the empty key
   alone, for all stores without a line break in a key.
   */
  lemma ListingsCollideIff(m1: Store, prefix1: Option<string>, m2: Store, prefix2: Option<string>)
    requires AllPlain(m1) && AllPlain(m2)
    ensures (exists reply :: ReplyFits(m1, KeyValue(ListKeys(prefix1)), reply) &&
                             ReplyFits(m2, KeyValue(ListKeys(prefix2)), reply))
            <==> Matching(m1, prefix1) == Matching(m2, prefix2)
                 || (Matching(m1, prefix1) <= {""} && Matching(m2, prefix2) <= {""})
  {
    var a, b := Matching(m1, prefix1), Matching(m2, prefix2);
    if a <= {""} && b <= {""} {
      var keys1 := EmptyText(a);
      var keys2 := EmptyText(b);
      assert ReplyFits(m1, KeyValue(ListKeys(prefix1)), "") && ReplyFits(m2, KeyValue(ListKeys(prefix2)), "");
    } else if a == b {
      var keys := EnumerationExists(a);
      assert ReplyFits(m1, KeyValue(ListKeys(prefix1)), Join(keys));
    } else if exists reply :: ReplyFits(m1, KeyValue(ListKeys(prefix1)), reply) &&
                              ReplyFits(m2, KeyValue(ListKeys(prefix2)), reply) {
      var reply :| ReplyFits(m1, KeyValue(ListKeys(prefix1)), reply) &&
                   ReplyFits(m2, KeyValue(ListKeys(prefix2)), reply);
      ListingIsLines(m1, prefix1, reply);
      ListingIsLines(m2, prefix2, reply);
      NoKeyOrEmptyKey(a, b, reply);
      NoKeyOrEmptyKey(b, a, reply);
      assert a != {} && b != {};
      OneEnumeration(a, b, Lines(reply));
    }
  }

  /** If the empty answer fits one set, the other lists at most the empty key. */
  lemma NoKeyOrEmptyKey(a: set<string>, b: set<string>, reply: string)
    requires a == {} ==> reply == ""
    requires b != {} ==> Enumerates(Lines(reply), b)
    ensures a == {} ==> b <= {""}
  {
  }

  /** A line break in a key does make listings collide. */
  lemma LineBreaksCollide(v: string)
    ensures ReplyFits(map["a\nb" := v], KeyValue(ListKeys(None)), "a\nb")
    ensures ReplyFits(map["a" := v, "b" := v], KeyValue(ListKeys(None)), "a\nb")
  {
    assert Enumerates(["a\nb"], Matching(map["a\nb" := v], None)) && Join(["a\nb"]) == "a\nb";
    assert ["a", "b"][..1] == ["a"] && Join(["a", "b"]) == "a\nb";
    assert Enumerates(["a", "b"], Matching(map["a" := v, "b" := v], None));
  }

  // ---------------------------------------------------------------- snapshots

  type Image = seq<(string, string)>

  /** A serialized map: its pairs, each key once, in whatever order. */
  ghost predicate Lists(image: Image, m: Store) {
    && (forall i, j :: 0 <= i < j < |image| ==> image[i].0 != image[j].0)
    && (forall i :: 0 <= i < |image| ==> image[i].0 in m && m[image[i].0] == image[i].1)
    && (forall k :: k in m ==> exists i :: 0 <= i < |image| && image[i].0 == k)
  }

  /** Deserialization inserts the pairs one after the other. */
  function FromImage(image: Image): Store {
    if image == [] then map[] else FromImage(image[..|image| - 1])[image[|image| - 1].0 := image[|image| - 1].1]
  }

  lemma {:induction false} FromImageAt(image: Image, k: string)
    requires forall i, j :: 0 <= i < j < |image| ==> image[i].0 != image[j].0
    ensures k in FromImage(image) <==> exists i :: 0 <= i < |image| && image[i].0 == k
    ensures forall i :: 0 <= i < |image| && image[i].0 == k ==> FromImage(image)[k] == image[i].1
  {
    if image != [] {
      var rest := image[..|image| - 1];
      FromImageAt(rest, k);
      if image[|image| - 1].0 != k {
        assert k in FromImage(image) <==> k in FromImage(rest);
        assert forall i :: 0 <= i < |rest| ==> rest[i] == image[i];
      }
    }
  }

  /** Restoring a snapshot gives the snapshotted map, whatever order the pairs were listed in. */
  lemma SnapshotRoundTrip(image: Image, m: Store)
    requires Lists(image, m)
    ensures FromImage(image) == m
  {
    forall k ensures k in FromImage(image) <==> k in m {
      FromImageAt(image, k);
    }
    forall k | k in m ensures FromImage(image)[k] == m[k] {
      FromImageAt(image, k);
      var i :| 0 <= i < |image| && image[i].0 == k;
    }
  }

  /** A snapshot followed by the rest of the log amounts to the whole log. */
  lemma SnapshotThenSuffix(image: Image, log: seq<Entry>, index: nat)
    requires index <= |log|
    requires Lists(image, Replay(map[], log[..index]))
    ensures Replay(FromImage(image), log[index..]) == Replay(map[], log)
  {
    SnapshotRoundTrip(image, Replay(map[], log[..index]));
    ReplayAppend(map[], log[..index], log[index..]);
    assert log[..index] + log[index..] == log;
  }

  // ---------------------------------------------------------------- the object

  class KeyValueStateMachine {
    var data: Store

    constructor ()
      ensures data == map[]
    {
      data := map[];
    }

    /** The keys with the prefix, in hash order: any order at all. */
    method CollectKeys(prefix: Option<string>) returns (keys: seq<string>)
      ensures Enumerates(keys, Matching(data, prefix))
    {
      keys := [];
      var left := Matching(data, prefix);
      while left != {}
        invariant left <= Matching(data, prefix)
        invariant Enumerates(keys, Matching(data, prefix) - left)
        decreases |left|
      {
        var k :| k in left;
        keys := keys + [k];
        left := left - {k};
      }
    }

    method Apply(d: ProposalData) returns (reply: string)
      modifies this
      ensures data == ApplyTo(old(data), d)
      ensures ReplyFits(old(data), d, reply)
      ensures d.KeyValue? && d.op.Set? ==> reply == "ok"
      ensures !d.KeyValue? ==> reply == "ack"
    {
      match d
      case KeyValue(Set(k, v)) =>
        data := data[k := v];
        reply := "ok";
      case KeyValue(Delete(k)) =>
        var existed := k in data;
        data := data - {k};
        reply := if existed then "deleted" else "not_found";
      case KeyValue(Get(k)) =>
        reply := if k in data then data[k] else "";
      case KeyValue(ListKeys(prefix)) =>
        var keys := CollectKeys(prefix);
        reply := Join(keys);
      case _ =>
        reply := "ack";
    }

    method Snapshot() returns (image: Image)
      ensures Lists(image, data)
    {
      image := [];
      var left := data.Keys;
      while left != {}
        invariant left <= data.Keys
        invariant forall i, j :: 0 <= i < j < |image| ==> image[i].0 != image[j].0
        invariant forall i :: 0 <= i < |image| ==>
                    image[i].0 in data && image[i].0 !in left && data[image[i].0] == image[i].1
        invariant forall k :: k in data && k !in left ==> exists i :: 0 <= i < |image| && image[i].0 == k
        decreases |left|
      {
        var k :| k in left;
        ghost var before := image;
        image := image + [(k, data[k])];
        left := left - {k};
        forall q | q in data && q !in left ensures exists i :: 0 <= i < |image| && image[i].0 == q {
          if q == k {
            assert image[|before|].0 == q;
          } else {
            var i :| 0 <= i < |before| && before[i].0 == q;
            assert image[i].0 == q;
          }
        }
      }
    }

    method Restore(image: Image)
      modifies this
      ensures data == FromImage(image)
    {
      var restored: Store := map[];
      for i := 0 to |image|
        invariant restored == FromImage(image[..i])
      {
        assert image[..i + 1][..i] == image[..i];
        restored := restored[image[i].0 := image[i].1];
      }
      assert image[..|image|] == image;
      data := restored;
    }
  }
}
