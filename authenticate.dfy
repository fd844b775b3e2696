// The decision logic shared by `try_authenticate` in leer.py and lector.py:
// which driver calls are made, in which order, and when the procedure stops.
// The scripts' methods are proved equal to `Attempts` below; the lemmas state
// what it guarantees.

module Authenticate {
  import opened Driver

  /** The slot representations tried for a key label: the symbol first, then the command code.
    * Any label other than 'A' selects Key B. */
  function KeyTypesFor(keyLabel: char): seq<KeyType>
  {
    if keyLabel == 'A' then [Letter('A'), Code(0x60)] else [Letter('B'), Code(0x61)]
  }

  function KeywordCall(block: int, key: seq<byte>, kt: KeyType): Call
  {
    Call(block, key, kt, Keyword)
  }

  function PositionalCall(block: int, key: seq<byte>, kt: KeyType): Call
  {
    Call(block, key, kt, Positional)
  }

  /** A call that returned a truthy value (the only outcome that ends the search). */
  predicate Succeeded(a: Attempt)
  {
    a.outcome == Returned(true)
  }

  /** The attempts made for one key type: the keyword call, then the positional call
    * exactly when the keyword call raised TypeError. */
  function KeyTypeAttempts(auth: AuthDriver, block: int, key: seq<byte>, kt: KeyType): (t: seq<Attempt>)
    ensures 1 <= |t| <= 2
    ensures t[0] == Attempt(KeywordCall(block, key, kt), auth(KeywordCall(block, key, kt)))
    ensures |t| == 2 <==> t[0].outcome == TypeErr
    ensures |t| == 2 ==> t[1] == Attempt(PositionalCall(block, key, kt), auth(PositionalCall(block, key, kt)))
  {
    var kw := KeywordCall(block, key, kt);
    if auth(kw) == TypeErr then
      var pos := PositionalCall(block, key, kt);
      [Attempt(kw, TypeErr), Attempt(pos, auth(pos))]
    else
      [Attempt(kw, auth(kw))]
  }

  /** The trace of driver calls `try_authenticate` makes over the key types `kts`:
    * each key type in turn, stopping right after the first call that returned truthy. */
  function Attempts(auth: AuthDriver, block: int, key: seq<byte>, kts: seq<KeyType>): seq<Attempt>
    decreases |kts|
  {
    if kts == [] then []
    else
      var first := KeyTypeAttempts(auth, block, key, kts[0]);
      if Succeeded(first[|first| - 1]) then first
      else first + Attempts(auth, block, key, kts[1..])
  }

  /** The value `try_authenticate` returns for a trace: whether its last call returned truthy. */
  predicate Authenticates(t: seq<Attempt>)
  {
    t != [] && Succeeded(t[|t| - 1])
  }

  /** Does `try_authenticate(block, key, keyLabel)` return true? */
  predicate AuthenticatesAs(auth: AuthDriver, block: int, key: seq<byte>, keyLabel: char)
  {
    Authenticates(Attempts(auth, block, key, KeyTypesFor(keyLabel)))
  }

  /** Independent of traces: does the key type authenticate, through either call style? */
  predicate KeyTypeSucceeds(auth: AuthDriver, block: int, key: seq<byte>, kt: KeyType)
  {
    var o := auth(KeywordCall(block, key, kt));
    o == Returned(true) || (o == TypeErr && auth(PositionalCall(block, key, kt)) == Returned(true))
  }

  /** The key types of the keyword-style calls of a trace, in order. */
  function KeywordTypes(t: seq<Attempt>): seq<KeyType>
  {
    if t == [] then []
    else (if t[0].call.style == Keyword then [t[0].call.keyType] else []) + KeywordTypes(t[1..])
  }

  lemma {:induction false} KeywordTypesAppend(s: seq<Attempt>, t: seq<Attempt>)
    ensures KeywordTypes(s + t) == KeywordTypes(s) + KeywordTypes(t)
  {
    if s != [] {
      var head := if s[0].call.style == Keyword then [s[0].call.keyType] else [];
      assert (s + t)[0] == s[0];
      assert (s + t)[1..] == s[1..] + t;
      KeywordTypesAppend(s[1..], t);
      assert KeywordTypes(s) == head + KeywordTypes(s[1..]);
      calc {
        KeywordTypes(s + t);
        head + KeywordTypes(s[1..] + t);
        head + (KeywordTypes(s[1..]) + KeywordTypes(t));
        (head + KeywordTypes(s[1..])) + KeywordTypes(t);
      }
    } else {
      assert s + t == t;
    }
  }

  lemma KeyTypeAttemptsKeywordTypes(auth: AuthDriver, block: int, key: seq<byte>, kt: KeyType)
    ensures KeywordTypes(KeyTypeAttempts(auth, block, key, kt)) == [kt]
  {
    var t := KeyTypeAttempts(auth, block, key, kt);
    if |t| == 2 {
      assert t[1..][0] == t[1] && t[1].call.style == Positional;
      assert t[1..][1..] == [];
      assert KeywordTypes(t[1..]) == [];
    } else {
      assert t[1..] == [];
    }
  }

  /** One key type authenticates exactly when its last attempt returned truthy. */
  lemma KeyTypeAttemptsSucceed(auth: AuthDriver, block: int, key: seq<byte>, kt: KeyType)
    ensures var t := KeyTypeAttempts(auth, block, key, kt);
      Succeeded(t[|t| - 1]) <==> KeyTypeSucceeds(auth, block, key, kt)
  {
  }

  /** Every recorded outcome is the driver's answer to the recorded call, and every call
    * is for `block` and `key` with one of the key types `kts`. */
  predicate Answered(auth: AuthDriver, block: int, key: seq<byte>, kts: seq<KeyType>, t: seq<Attempt>)
  {
    forall i :: 0 <= i < |t| ==>
      t[i].outcome == auth(t[i].call) && t[i].call.block == block && t[i].call.key == key && t[i].call.keyType in kts
  }

  /** No call before the last one returned truthy. */
  predicate NoEarlierSuccess(t: seq<Attempt>)
  {
    forall i :: 0 <= i < |t| - 1 ==> !Succeeded(t[i])
  }

  /** A positional call comes right after the keyword call with the same block, key and key type,
    * which raised TypeError; and a keyword call that raised TypeError is followed by that positional call. */
  predicate PositionalFollowsTypeError(t: seq<Attempt>)
  {
    (forall i :: 0 <= i < |t| && t[i].call.style == Positional ==>
       0 < i && t[i - 1] == Attempt(t[i].call.(style := Keyword), TypeErr)) &&
    (forall i :: 0 <= i < |t| && t[i].call.style == Keyword && t[i].outcome == TypeErr ==>
       i + 1 < |t| && t[i + 1].call == t[i].call.(style := Positional))
  }

  lemma {:induction false} AttemptsAnswered(auth: AuthDriver, block: int, key: seq<byte>, kts: seq<KeyType>)
    ensures Answered(auth, block, key, kts, Attempts(auth, block, key, kts))
    decreases |kts|
  {
    var t := Attempts(auth, block, key, kts);
    if kts != [] {
      var first := KeyTypeAttempts(auth, block, key, kts[0]);
      if !Succeeded(first[|first| - 1]) {
        var rest := Attempts(auth, block, key, kts[1..]);
        AttemptsAnswered(auth, block, key, kts[1..]);
        assert t == first + rest;
        forall i | 0 <= i < |t|
          ensures t[i].outcome == auth(t[i].call) && t[i].call.block == block && t[i].call.key == key && t[i].call.keyType in kts
        {
          if i >= |first| {
            assert t[i] == rest[i - |first|];
            assert t[i].call.keyType in kts[1..];
          }
        }
      }
    }
  }

  /** Exhaustion bound: at most two calls per key type, and at least one call when there is a key type. */
  lemma {:induction false} AttemptsBound(auth: AuthDriver, block: int, key: seq<byte>, kts: seq<KeyType>)
    ensures |Attempts(auth, block, key, kts)| <= 2 * |kts|
    ensures kts != [] ==> |Attempts(auth, block, key, kts)| >= 1
    decreases |kts|
  {
    if kts != [] {
      var first := KeyTypeAttempts(auth, block, key, kts[0]);
      AttemptsBound(auth, block, key, kts[1..]);
      if !Succeeded(first[|first| - 1]) {
        assert Attempts(auth, block, key, kts) == first + Attempts(auth, block, key, kts[1..]);
      }
    }
  }

  /** First match: no call before the last one returned truthy, so the result is true
    * exactly when some call returned truthy. */
  lemma {:induction false} AttemptsStopAtFirstSuccess(auth: AuthDriver, block: int, key: seq<byte>, kts: seq<KeyType>)
    ensures NoEarlierSuccess(Attempts(auth, block, key, kts))
    ensures Authenticates(Attempts(auth, block, key, kts)) <==>
      exists i :: 0 <= i < |Attempts(auth, block, key, kts)| && Succeeded(Attempts(auth, block, key, kts)[i])
    decreases |kts|
  {
    var t := Attempts(auth, block, key, kts);
    if kts != [] {
      var first := KeyTypeAttempts(auth, block, key, kts[0]);
      if !Succeeded(first[|first| - 1]) {
        var rest := Attempts(auth, block, key, kts[1..]);
        AttemptsStopAtFirstSuccess(auth, block, key, kts[1..]);
        assert t == first + rest;
        forall i | 0 <= i < |t| - 1 ensures !Succeeded(t[i]) {
          if i >= |first| {
            assert t[i] == rest[i - |first|];
          }
        }
        if rest != [] {
          assert t[|t| - 1] == rest[|rest| - 1];
        }
      }
    }
  }

  lemma {:induction false} AttemptsPositionalFollowTypeError(auth: AuthDriver, block: int, key: seq<byte>, kts: seq<KeyType>)
    ensures PositionalFollowsTypeError(Attempts(auth, block, key, kts))
    decreases |kts|
  {
    var t := Attempts(auth, block, key, kts);
    if kts != [] {
      var first := KeyTypeAttempts(auth, block, key, kts[0]);
      if !Succeeded(first[|first| - 1]) {
        var rest := Attempts(auth, block, key, kts[1..]);
        AttemptsPositionalFollowTypeError(auth, block, key, kts[1..]);
        assert t == first + rest;
        forall i | 0 <= i < |t| && t[i].call.style == Positional
          ensures 0 < i && t[i - 1] == Attempt(t[i].call.(style := Keyword), TypeErr)
        {
          if i >= |first| {
            var j := i - |first|;
            assert t[i] == rest[j];
            assert t[i - 1] == rest[j - 1];
          } else {
            assert i == 1 && t[0] == first[0] && t[1] == first[1];
          }
        }
        forall i | 0 <= i < |t| && t[i].call.style == Keyword && t[i].outcome == TypeErr
          ensures i + 1 < |t| && t[i + 1].call == t[i].call.(style := Positional)
        {
          if i >= |first| {
            var j := i - |first|;
            assert t[i] == rest[j];
            assert t[i + 1] == rest[j + 1];
          } else {
            assert i == 0 && t[0] == first[0] && t[1] == first[1];
          }
        }
      } else {
        forall i | 0 <= i < |t| && t[i].call.style == Keyword && t[i].outcome == TypeErr
          ensures i + 1 < |t| && t[i + 1].call == t[i].call.(style := Positional)
        {
          assert i == 0;
        }
      }
    }
  }

  /** Trial order: the keyword calls go through a prefix of `kts`, in order, and at least
    * through its first key type. */
  lemma {:induction false} KeywordCallsInOrder(auth: AuthDriver, block: int, key: seq<byte>, kts: seq<KeyType>)
    ensures KeywordTypes(Attempts(auth, block, key, kts)) <= kts
    ensures kts != [] ==> KeywordTypes(Attempts(auth, block, key, kts)) != []
    decreases |kts|
  {
    if kts != [] {
      var first := KeyTypeAttempts(auth, block, key, kts[0]);
      KeyTypeAttemptsKeywordTypes(auth, block, key, kts[0]);
      if !Succeeded(first[|first| - 1]) {
        var rest := Attempts(auth, block, key, kts[1..]);
        KeywordCallsInOrder(auth, block, key, kts[1..]);
        KeywordTypesAppend(first, rest);
        assert kts == [kts[0]] + kts[1..];
      }
    }
  }

  /** Exhaustion: when no call succeeded, every key type was tried. */
  lemma {:induction false} KeywordCallsExhaust(auth: AuthDriver, block: int, key: seq<byte>, kts: seq<KeyType>)
    requires !Authenticates(Attempts(auth, block, key, kts))
    ensures KeywordTypes(Attempts(auth, block, key, kts)) == kts
    decreases |kts|
  {
    if kts != [] {
      var t := Attempts(auth, block, key, kts);
      var first := KeyTypeAttempts(auth, block, key, kts[0]);
      KeyTypeAttemptsKeywordTypes(auth, block, key, kts[0]);
      var rest := Attempts(auth, block, key, kts[1..]);
      assert t == first + rest;
      assert rest == [] || t[|t| - 1] == rest[|rest| - 1];
      KeywordCallsExhaust(auth, block, key, kts[1..]);
      KeywordTypesAppend(first, rest);
      assert kts == [kts[0]] + kts[1..];
    }
  }

  /** First match over key types: when the result is true, the last key type reached
    * authenticates and no earlier one does. */
  lemma {:induction false} LastKeyTypeIsFirstMatch(auth: AuthDriver, block: int, key: seq<byte>, kts: seq<KeyType>)
    requires Authenticates(Attempts(auth, block, key, kts))
    ensures var m := |KeywordTypes(Attempts(auth, block, key, kts))|;
      0 < m <= |kts| && KeyTypeSucceeds(auth, block, key, kts[m - 1]) &&
      forall j :: 0 <= j < m - 1 ==> !KeyTypeSucceeds(auth, block, key, kts[j])
    decreases |kts|
  {
    var t := Attempts(auth, block, key, kts);
    var first := KeyTypeAttempts(auth, block, key, kts[0]);
    KeyTypeAttemptsKeywordTypes(auth, block, key, kts[0]);
    KeyTypeAttemptsSucceed(auth, block, key, kts[0]);
    if !Succeeded(first[|first| - 1]) {
      var rest := Attempts(auth, block, key, kts[1..]);
      assert t == first + rest;
      assert rest != [] && t[|t| - 1] == rest[|rest| - 1];
      LastKeyTypeIsFirstMatch(auth, block, key, kts[1..]);
      KeywordTypesAppend(first, rest);
      var m := |KeywordTypes(rest)|;
      assert |KeywordTypes(t)| == m + 1;
      forall j | 0 <= j < m ensures !KeyTypeSucceeds(auth, block, key, kts[j]) {
        if j > 0 {
          assert kts[j] == kts[1..][j - 1];
        }
      }
      assert kts[m] == kts[1..][m - 1];
    } else {
      assert t == first;
    }
  }

  /** `try_authenticate` returns true exactly when one of the key types authenticates,
    * through either call style. */
  lemma {:induction false} AuthenticatesIff(auth: AuthDriver, block: int, key: seq<byte>, kts: seq<KeyType>)
    ensures Authenticates(Attempts(auth, block, key, kts)) <==>
      exists j :: 0 <= j < |kts| && KeyTypeSucceeds(auth, block, key, kts[j])
    decreases |kts|
  {
    if kts != [] {
      var first := KeyTypeAttempts(auth, block, key, kts[0]);
      KeyTypeAttemptsSucceed(auth, block, key, kts[0]);
      if !Succeeded(first[|first| - 1]) {
        var rest := Attempts(auth, block, key, kts[1..]);
        AuthenticatesIff(auth, block, key, kts[1..]);
        assert Attempts(auth, block, key, kts) == first + rest;
        if exists j :: 0 <= j < |kts| && KeyTypeSucceeds(auth, block, key, kts[j]) {
          var j :| 0 <= j < |kts| && KeyTypeSucceeds(auth, block, key, kts[j]);
          assert j > 0 && kts[1..][j - 1] == kts[j];
        }
        if Authenticates(first + rest) {
          assert rest != [] && (first + rest)[|first + rest| - 1] == rest[|rest| - 1];
          var j :| 0 <= j < |kts[1..]| && KeyTypeSucceeds(auth, block, key, kts[1..][j]);
          assert kts[j + 1] == kts[1..][j];
        }
      }
    }
  }

  /** For one invocation of `try_authenticate`: between one and four driver calls, the first
    * is the keyword call with the label's symbol, and the symbol is tried before the code. */
  lemma TryAuthenticateShape(auth: AuthDriver, block: int, key: seq<byte>, keyLabel: char)
    ensures 1 <= |Attempts(auth, block, key, KeyTypesFor(keyLabel))| <= 4
    ensures Attempts(auth, block, key, KeyTypesFor(keyLabel))[0].call ==
      KeywordCall(block, key, if keyLabel == 'A' then Letter('A') else Letter('B'))
    ensures KeywordTypes(Attempts(auth, block, key, KeyTypesFor(keyLabel))) <= KeyTypesFor(keyLabel)
  {
    AttemptsBound(auth, block, key, KeyTypesFor(keyLabel));
    KeywordCallsInOrder(auth, block, key, KeyTypesFor(keyLabel));
  }

  /** How the trace of `try_authenticate` grows by the attempts of key type i: it ends there
    * when the last of them succeeded, and otherwise goes on from key type i + 1. */
  lemma LoopStep(auth: AuthDriver, block: int, key: seq<byte>, kts: seq<KeyType>, i: nat,
                 trace: seq<Attempt>, step: seq<Attempt>)
    requires i < |kts|
    requires Attempts(auth, block, key, kts) == trace + Attempts(auth, block, key, kts[i..])
    requires step == KeyTypeAttempts(auth, block, key, kts[i])
    ensures Succeeded(step[|step| - 1]) ==> Attempts(auth, block, key, kts) == trace + step
    ensures !Succeeded(step[|step| - 1]) ==>
      Attempts(auth, block, key, kts) == (trace + step) + Attempts(auth, block, key, kts[i + 1..])
    ensures Authenticates(trace + step) == Succeeded(step[|step| - 1])
  {
  }

  /** The body of the loop of `try_authenticate` for one key type: the keyword call, and the
    * positional call when that raised TypeError; any other exception counts as a failure. */
  method TryKeyType(auth: AuthDriver, block: int, key: seq<byte>, kt: KeyType)
    returns (ok: bool, step: seq<Attempt>)
    ensures step == KeyTypeAttempts(auth, block, key, kt)
    ensures ok == Succeeded(step[|step| - 1])
    ensures ok == KeyTypeSucceeds(auth, block, key, kt)
  {
    var kw := Call(block, key, kt, Keyword);
    var outcome := auth(kw);
    if outcome == TypeErr {
      var pos := Call(block, key, kt, Positional);
      var retried := auth(pos);
      step := [Attempt(kw, outcome), Attempt(pos, retried)];
      ok := retried.Returned? && retried.truthy;
    } else {
      step := [Attempt(kw, outcome)];
      ok := outcome.Returned? && outcome.truthy;
    }
  }

  /** The loop of `try_authenticate` over its key-type list: the keyword call for each key
    * type and, when that raised TypeError, the positional call; returns at the first truthy
    * result and swallows every exception. */
  method TryKeyTypes(auth: AuthDriver, block: int, key: seq<byte>, keyTypes: seq<KeyType>)
    returns (ok: bool, trace: seq<Attempt>)
    ensures trace == Attempts(auth, block, key, keyTypes)
    ensures ok == Authenticates(trace)
  {
    trace := [];
    var i := 0;
    while i < |keyTypes|
      invariant 0 <= i <= |keyTypes|
      invariant Attempts(auth, block, key, keyTypes) == trace + Attempts(auth, block, key, keyTypes[i..])
      invariant !Authenticates(trace)
    {
      var authenticated, step := TryKeyType(auth, block, key, keyTypes[i]);
      LoopStep(auth, block, key, keyTypes, i, trace, step);
      trace := trace + step;
      if authenticated {
        ok := true;
        return;
      }
      i := i + 1;
    }
    assert keyTypes[i..] == [];
    ok := false;
  }
}
