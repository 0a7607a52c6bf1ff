/**
 * The in-memory scan history store: a list of scan records, newest first,
 * changed only by `addScan` (prepend one record) and `clearScans` (empty it).
 */
module ScanStore {

  /** One history entry. The id and the timestamp are supplied by the caller. */
  datatype ScanItem = ScanItem(id: string, text: string, date: int)

  /** A call of one of the store's two updaters. */
  datatype Op = Add(id: string, text: string, date: int) | Clear

  /** The list that an updater's `set` produces from the current list. */
  function Apply(scans: seq<ScanItem>, op: Op): (r: seq<ScanItem>)
    ensures op.Add? ==> |r| == |scans| + 1 && r[0] == ScanItem(op.id, op.text, op.date) && r[1..] == scans
    ensures op.Clear? ==> r == []
  {
    match op
    case Add(id, text, date) => [ScanItem(id, text, date)] + scans
    case Clear => []
  }

  /** The list after the calls `ops`, in call order, starting from `scans`. */
  function Run(scans: seq<ScanItem>, ops: seq<Op>): seq<ScanItem>
    decreases |ops|
  {
    if ops == [] then scans else Apply(Run(scans, ops[..|ops| - 1]), ops[|ops| - 1])
  }

  /** The texts of a list of records, position by position. */
  function Texts(scans: seq<ScanItem>): (r: seq<string>)
    ensures |r| == |scans|
  {
    if scans == [] then [] else [scans[0].text] + Texts(scans[1..])
  }

  /** The texts passed to the `Add` calls among `ops`, in call order. */
  function AddedTexts(ops: seq<Op>): (r: seq<string>)
    ensures |r| <= |ops|
    decreases |ops|
  {
    if ops == [] then []
    else
      var last := ops[|ops| - 1];
      AddedTexts(ops[..|ops| - 1]) + (if last.Add? then [last.text] else [])
  }

  /** The calls made after the last `Clear` (all of them when there is none). */
  function SinceLastClear(ops: seq<Op>): (r: seq<Op>)
    ensures Clear !in r
    decreases |ops|
  {
    if ops == [] then []
    else if ops[|ops| - 1].Clear? then []
    else SinceLastClear(ops[..|ops| - 1]) + [ops[|ops| - 1]]
  }

  function Reversed<T>(s: seq<T>): (r: seq<T>)
    ensures |r| == |s|
    decreases |s|
  {
    if s == [] then [] else [s[|s| - 1]] + Reversed(s[..|s| - 1])
  }

  /** Position `i` of the texts is the text of record `i`. */
  lemma {:induction false} TextsAt(scans: seq<ScanItem>, i: nat)
    requires i < |scans|
    ensures Texts(scans)[i] == scans[i].text
    decreases |scans|
  {
    if i > 0 {
      TextsAt(scans[1..], i - 1);
    }
  }

  /** Position `i` of the reversal is position `|s| - 1 - i` of the original. */
  lemma {:induction false} ReversedAt<T>(s: seq<T>, i: nat)
    requires i < |s|
    ensures Reversed(s)[i] == s[|s| - 1 - i]
    decreases |s|
  {
    if i > 0 {
      ReversedAt(s[..|s| - 1], i - 1);
    }
  }

  /** When every call is an add, the added texts are the calls' texts, one for one. */
  lemma {:induction false} AddedTextsOfAdds(ops: seq<Op>)
    requires forall i :: 0 <= i < |ops| ==> ops[i].Add?
    ensures |AddedTexts(ops)| == |ops|
    ensures forall i :: 0 <= i < |ops| ==> AddedTexts(ops)[i] == ops[i].text
    decreases |ops|
  {
    if ops != [] {
      AddedTextsOfAdds(ops[..|ops| - 1]);
    }
  }

  /** Reversing a sequence with one more element at the end puts that element first. */
  lemma ReversedSnoc<T>(s: seq<T>, x: T)
    ensures Reversed(s + [x]) == [x] + Reversed(s)
  {
    assert (s + [x])[..|s|] == s;
  }

  /** Texts of a list with one record in front. */
  lemma TextsCons(item: ScanItem, scans: seq<ScanItem>)
    ensures Texts([item] + scans) == [item.text] + Texts(scans)
  {
    assert ([item] + scans)[1..] == scans;
  }

  /**
   * The store's contents after any sequence of calls: the texts of the adds
   * since the last clear, newest first, followed by the starting list when
   * no clear happened at all.
   */
  lemma {:induction false} RunTexts(scans: seq<ScanItem>, ops: seq<Op>)
    ensures Texts(Run(scans, ops)) ==
            Reversed(AddedTexts(SinceLastClear(ops))) + (if Clear in ops then [] else Texts(scans))
    decreases |ops|
  {
    if ops != [] {
      var init, last := ops[..|ops| - 1], ops[|ops| - 1];
      assert ops == init + [last];
      RunTexts(scans, init);
      if last.Add? {
        RunTextsAddStep(scans, ops);
      } else {
        RunTextsClearStep(scans, init, last);
      }
    }
  }

  /** The inductive step of RunTexts for a trailing clear: everything before it is forgotten. */
  lemma RunTextsClearStep(scans: seq<ScanItem>, init: seq<Op>, last: Op)
    requires last.Clear?
    ensures Texts(Run(scans, init + [last])) ==
            Reversed(AddedTexts(SinceLastClear(init + [last]))) + (if Clear in init + [last] then [] else Texts(scans))
  {
    var ops := init + [last];
    assert ops[|ops| - 1] == Clear;
    assert Clear in ops;
  }

  /** The inductive step of RunTexts for a trailing add. */
  lemma RunTextsAddStep(scans: seq<ScanItem>, ops: seq<Op>)
    requires ops != [] && ops[|ops| - 1].Add?
    requires Texts(Run(scans, ops[..|ops| - 1])) ==
             Reversed(AddedTexts(SinceLastClear(ops[..|ops| - 1]))) +
             (if Clear in ops[..|ops| - 1] then [] else Texts(scans))
    ensures Texts(Run(scans, ops)) ==
            Reversed(AddedTexts(SinceLastClear(ops))) + (if Clear in ops then [] else Texts(scans))
  {
    var init, last := ops[..|ops| - 1], ops[|ops| - 1];
    var before := Run(scans, init);
    var added := AddedTexts(SinceLastClear(init));
    var rest := if Clear in init then [] else Texts(scans);
    TextsCons(ScanItem(last.id, last.text, last.date), before);
    assert Texts(Run(scans, ops)) == [last.text] + (Reversed(added) + rest);
    SnocSplit(ops);
    assert (if Clear in ops then [] else Texts(scans)) == rest;
    AddedTextsSnoc(SinceLastClear(init), last);
    ReversedSnoc(added, last.text);
    assert Reversed(AddedTexts(SinceLastClear(ops))) == [last.text] + Reversed(added);
    AppendAssoc([last.text], Reversed(added), rest);
  }

  /** Associativity of `+`, stated apart so that RunTextsAddStep stays within its resource limit. */
  lemma AppendAssoc<T>(a: seq<T>, b: seq<T>, c: seq<T>)
    ensures a + (b + c) == (a + b) + c
  {
  }

  /** The added texts of calls ending in an add end in that add's text. */
  lemma AddedTextsSnoc(ops: seq<Op>, last: Op)
    requires last.Add?
    ensures AddedTexts(ops + [last]) == AddedTexts(ops) + [last.text]
  {
    assert (ops + [last])[..|ops|] == ops;
  }

  /**
   * A non-empty sequence is its prefix followed by its last element, which is
   * in it; stated apart so that RunTextsAddStep stays within its resource limit.
   */
  lemma SnocSplit<T>(s: seq<T>)
    requires s != []
    ensures s == s[..|s| - 1] + [s[|s| - 1]]
    ensures forall x :: x in s <==> x in s[..|s| - 1] || x == s[|s| - 1]
  {
  }

  /** The number of records is the number of adds since the last clear, plus the start when never cleared. */
  lemma RunLength(scans: seq<ScanItem>, ops: seq<Op>)
    ensures |Run(scans, ops)| == |SinceLastClear(ops)| + (if Clear in ops then 0 else |scans|)
  {
    RunTexts(scans, ops);
    var since := SinceLastClear(ops);
    forall i | 0 <= i < |since| ensures since[i].Add? {
      assert since[i] in since;
    }
    AddedTextsOfAdds(since);
  }

  /** Without a clear, the calls after the last clear are all of them. */
  lemma {:induction false} SinceLastClearNoClear(ops: seq<Op>)
    requires forall i :: 0 <= i < |ops| ==> ops[i].Add?
    ensures SinceLastClear(ops) == ops
    decreases |ops|
  {
    if ops != [] {
      SinceLastClearNoClear(ops[..|ops| - 1]);
    }
  }

  /**
   * `n` calls `addScan(t1) .. addScan(tn)` on an empty store leave the
   * texts `[tn, .., t1]`.
   */
  lemma AddsFromEmpty(adds: seq<Op>)
    requires forall i :: 0 <= i < |adds| ==> adds[i].Add?
    ensures var r := Texts(Run([], adds));
            |r| == |adds| && forall i :: 0 <= i < |adds| ==> r[i] == adds[|adds| - 1 - i].text
  {
    SinceLastClearNoClear(adds);
    RunTexts([], adds);
    assert Clear !in adds;
    AddedTextsOfAdds(adds);
    var added := AddedTexts(adds);
    forall i | 0 <= i < |adds|
      ensures Texts(Run([], adds))[i] == adds[|adds| - 1 - i].text
    {
      ReversedAt(added, i);
    }
  }

  /** Right after a clear, the list holds exactly what the same adds produce on an empty store. */
  lemma AddsAfterClear(scans: seq<ScanItem>, adds: seq<Op>)
    requires forall i :: 0 <= i < |adds| ==> adds[i].Add?
    ensures Texts(Run(scans, [Clear] + adds)) == Texts(Run([], adds))
  {
    SinceLastClearNoClear(adds);
    RunTexts([], adds);
    assert Clear !in adds;
    var ops := [Clear] + adds;
    RunTexts(scans, ops);
    SinceLastClearAfterClear(adds);
    assert ops[0] == Clear;
  }

  /** After a leading clear and only adds, the calls since the last clear are the adds. */
  lemma {:induction false} SinceLastClearAfterClear(adds: seq<Op>)
    requires forall i :: 0 <= i < |adds| ==> adds[i].Add?
    ensures SinceLastClear([Clear] + adds) == adds
    decreases |adds|
  {
    if adds != [] {
      var init := adds[..|adds| - 1];
      assert ([Clear] + adds)[..|adds|] == [Clear] + init;
      SinceLastClearAfterClear(init);
    }
  }

  /** Clearing twice leaves the same list as clearing once, whatever came before. */
  lemma ClearIdempotent(scans: seq<ScanItem>, ops: seq<Op>)
    ensures Run(scans, ops + [Clear, Clear]) == Run(scans, ops + [Clear]) == []
  {
    assert (ops + [Clear, Clear])[..|ops| + 1] == ops + [Clear];
  }

  /**
   * The store object. `scans` is the state field; the ghost `ops` is the
   * history of updater calls since creation, and `Valid` ties the two.
   */
  class Store {
    var scans: seq<ScanItem>
    ghost var ops: seq<Op>

    ghost predicate Valid()
      reads this
    {
      scans == Run([], ops)
    }

    /** The store starts with no scans. */
    constructor ()
      ensures Valid() && ops == [] && scans == []
    {
      scans := [];
      ops := [];
    }

    /** `addScan(text)`: a new record with `text` verbatim goes in front of the old list. */
    method AddScan(text: string, id: string, date: int)
      requires Valid()
      modifies this
      ensures Valid() && ops == old(ops) + [Add(id, text, date)]
      ensures scans == [ScanItem(id, text, date)] + old(scans)
    {
      scans := [ScanItem(id, text, date)] + scans;
      ops := ops + [Add(id, text, date)];
      assert ops[..|ops| - 1] == old(ops);
    }

    /** `clearScans()`: the list becomes empty, whatever it held. */
    method ClearScans()
      requires Valid()
      modifies this
      ensures Valid() && ops == old(ops) + [Clear]
      ensures scans == []
    {
      scans := [];
      ops := ops + [Clear];
    }
  }
}
