/**
 This module models the field values the login wizard accumulates: the entries
 a submitted form yields (`FormData`), their conversion to a plain object
 (`Object.fromEntries`) and the object spread that merges a step's fields into
 the values collected so far (`{ ...formValues, ...fields }`).
 */
module FormValues {

  /** Collected field values: field name to the submitted string. */
  type Values = map<string, string>

  /** One entry of a submitted form, as `FormData` yields it: name and value. */
  type Entry = (string, string)

  /** The names that occur in `es`. */
  ghost function Names(es: seq<Entry>): set<string>
  {
    set i | 0 <= i < |es| :: es[i].0
  }

  /** The entry at position `j` is not overridden by a later entry of the same name. */
  ghost predicate IsLast(es: seq<Entry>, j: int)
    requires 0 <= j < |es|
  {
    forall i :: j < i < |es| ==> es[i].0 != es[j].0
  }

  /**
   `Object.fromEntries`: every name of the entries becomes a key; which value
   it gets is stated by `FromEntriesLastWins`.
   */
  function FromEntries(es: seq<Entry>): (m: Values)
    ensures m.Keys == Names(es)
    decreases |es|
  {
    if |es| == 0 then map[]
    else
      var init := es[..|es| - 1];
      var last := es[|es| - 1];
      assert forall j :: 0 <= j < |init| ==> init[j] == es[j];
      assert Names(es) == Names(init) + {last.0};
      FromEntries(init)[last.0 := last.1]
  }

  /** When a name occurs more than once among the entries, the last entry wins. */
  lemma {:induction false} FromEntriesLastWins(es: seq<Entry>, j: int)
    requires 0 <= j < |es| && IsLast(es, j)
    ensures FromEntries(es)[es[j].0] == es[j].1
    decreases |es|
  {
    if j < |es| - 1 {
      var init := es[..|es| - 1];
      assert IsLast(init, j) by {
        forall i | j < i < |init| ensures init[i].0 != init[j].0 {
          assert init[i] == es[i];
        }
      }
      FromEntriesLastWins(init, j);
    }
  }

  /**
   The spread `{ ...current, ...submitted }`: the union of both objects, where
   a key present in `submitted` takes its value from there and every other key
   keeps the value it had in `current`.
   */
  function Merge(current: Values, submitted: Values): (r: Values)
    ensures r.Keys == current.Keys + submitted.Keys
    ensures forall k :: k in submitted ==> r[k] == submitted[k]
    ensures forall k :: k in current && k !in submitted ==> r[k] == current[k]
  {
    current + submitted
  }

  /** The values after one step's form is submitted with entries `es`. */
  function Accept(current: Values, es: seq<Entry>): (r: Values)
    ensures r.Keys == current.Keys + Names(es)
    ensures forall k :: k in current && k !in Names(es) ==> r[k] == current[k]
    ensures forall k :: k in Names(es) ==> r[k] == FromEntries(es)[k]
  {
    Merge(current, FromEntries(es))
  }

  /** A submitted name receives the value of its last entry in the submission. */
  lemma AcceptLastWins(current: Values, es: seq<Entry>, j: int)
    requires 0 <= j < |es| && IsLast(es, j)
    ensures Accept(current, es)[es[j].0] == es[j].1
  {
    FromEntriesLastWins(es, j);
  }

  /** Submitting the same fields twice in a row is the same as submitting them once. */
  lemma MergeIdempotent(current: Values, submitted: Values)
    ensures Merge(Merge(current, submitted), submitted) == Merge(current, submitted)
  {
  }

  /** Merging is associative, so successive steps may be merged in either grouping. */
  lemma MergeAssociative(a: Values, b: Values, c: Values)
    ensures Merge(Merge(a, b), c) == Merge(a, Merge(b, c))
  {
  }

  /** Appending one entry updates (or adds) exactly that entry's name. */
  lemma FromEntriesSnoc(es: seq<Entry>, e: Entry)
    ensures FromEntries(es + [e]) == FromEntries(es)[e.0 := e.1]
  {
    assert (es + [e])[..|es|] == es;
  }

  /** Updating the right operand of a merge is updating the merge. */
  lemma MergeUpdate(m: Values, n: Values, k: string, v: string)
    ensures Merge(m, n[k := v]) == Merge(m, n)[k := v]
  {
  }

  /**
   Converting a concatenation of entries is the same as converting both parts
   and merging the second over the first: later entries win across the seam.
   */
  lemma {:induction false} FromEntriesAppend(a: seq<Entry>, b: seq<Entry>)
    ensures FromEntries(a + b) == Merge(FromEntries(a), FromEntries(b))
    decreases |b|
  {
    if |b| == 0 {
      assert a + b == a;
    } else {
      var b', last := b[..|b| - 1], b[|b| - 1];
      assert b == b' + [last];
      assert a + b == (a + b') + [last];
      FromEntriesSnoc(a + b', last);
      FromEntriesSnoc(b', last);
      FromEntriesAppend(a, b');
      MergeUpdate(FromEntries(a), FromEntries(b'), last.0, last.1);
    }
  }

  /**
   Accepting several steps in turn leaves the same values as accepting all
   their entries at once.
   */
  lemma AcceptTwice(current: Values, a: seq<Entry>, b: seq<Entry>)
    ensures Accept(Accept(current, a), b) == Accept(current, a + b)
  {
    FromEntriesAppend(a, b);
    MergeAssociative(current, FromEntries(a), FromEntries(b));
  }
}
