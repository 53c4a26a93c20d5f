/**
 * The accumulating validator the handlers use: a map from field name to the
 * first message recorded for it. `Check` records a message only when the
 * condition is false and the key holds no message yet; `Valid` means no entry.
 */
module Validator {

  type Errors = map<string, string>

  function Check(v: Errors, ok: bool, key: string, message: string): Errors
  {
    if ok || key in v then v else v[key := message]
  }

  /** At any key `k`: `Check` adds `key` exactly when the condition fails and the key is new, and changes nothing else. */
  lemma CheckAt(v: Errors, ok: bool, key: string, message: string, k: string)
    ensures k in Check(v, ok, key, message) <==> k in v || (!ok && k == key)
    ensures k in v ==> Check(v, ok, key, message)[k] == v[k]
    ensures !ok && k !in v && k == key ==> Check(v, ok, key, message)[k] == message
  {
  }

  function AddError(v: Errors, key: string, message: string): Errors
  {
    Check(v, false, key, message)
  }

  predicate Valid(v: Errors)
  {
    v == map[]
  }

  /** Running one validator after another: every key keeps its first message. */
  function Accumulate(first: Errors, second: Errors): (r: Errors)
    ensures r.Keys == first.Keys + second.Keys
    ensures forall k :: k in first ==> r[k] == first[k]
    ensures forall k :: k in second && k !in first ==> r[k] == second[k]
  {
    second + first
  }

  /** No element occurs twice. */
  predicate Unique<T(==)>(s: seq<T>)
  {
    forall i, j :: 0 <= i < j < |s| ==> s[i] != s[j]
  }

  function Elements<T>(s: seq<T>): set<T>
  {
    set x | x in s
  }

  lemma {:induction false} ElementsBound<T>(s: seq<T>)
    ensures |Elements(s)| <= |s|
  {
    if s != [] {
      ElementsBound(s[1..]);
      assert Elements(s) == {s[0]} + Elements(s[1..]);
    }
  }

  /** `Unique` is the documented test "the set of the elements is as large as the slice". */
  lemma {:induction false} UniqueIffCardinality<T>(s: seq<T>)
    ensures Unique(s) <==> |Elements(s)| == |s|
  {
    if s != [] {
      var t := s[1..];
      UniqueIffCardinality(t);
      assert Elements(s) == {s[0]} + Elements(t);
      if s[0] in t {
        ElementsBound(t);
        var k :| 0 <= k < |t| && t[k] == s[0];
        assert s[0] == s[k + 1];
        assert Elements(s) == Elements(t);
      } else {
        assert Elements(s) - {s[0]} == Elements(t);
        if Unique(s) {
          assert Unique(t) by {
            forall i, j | 0 <= i < j < |t| ensures t[i] != t[j] {
              assert t[i] == s[i + 1] && t[j] == s[j + 1];
            }
          }
        } else {
          var i, j :| 0 <= i < j < |s| && s[i] == s[j];
          if i > 0 {
            assert t[i - 1] == t[j - 1];
          } else {
            assert s[j] == t[j - 1];
          }
        }
        if Unique(t) {
          forall i, j | 0 <= i < j < |s| ensures s[i] != s[j] {
            if i == 0 { assert s[j] == t[j - 1]; } else { assert s[i] == t[i - 1] && s[j] == t[j - 1]; }
          }
        }
      }
    }
  }
}
