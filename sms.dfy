/**
 * The SMS verification-code validator of support/sms/validator.go: codes
 * kept in a key-to-code store, valid for a scene's duration, re-sendable
 * only after its interval, and consumed by a successful check. The clock
 * is the `now` parameter (Unix seconds); the scene lookup, the store's
 * write error and the SMS agency's send error are the results the caller
 * passes in.
 */
module Sms {
  import opened Wrappers

  /** A verification code with its production time and the scene's durations, in seconds. */
  datatype Code = Code(code: string, produceAt: int, validDuration: int, reproduceInterval: int)

  /** What the scene lookup returns (the message template is not part of this model). */
  datatype Scene = Scene(validDuration: int, reproduceInterval: int, codeLen: int)

  datatype SmsError =
    | Invalid                       // ErrInvalid: no code stored, or it has expired
    | Wrong                         // ErrWrong: a valid code is stored but differs
    | ReproduceRemain(seconds: int) // ErrReproduceRemain: wait this long before re-sending
    | FetchFailed(reason: string)   // the scene lookup's own error
    | StoreFailed(reason: string)   // the storage's own error on Set
    | SendFailed(reason: string)    // the agency's own error on Send

  /** `Code.IsValid` at instant `now`. */
  predicate IsValid(c: Code, now: int) {
    c.produceAt + c.validDuration > now
  }

  /** `Code.ReproduceRemain` at instant `now`. */
  function Remain(c: Code, now: int): int {
    c.produceAt + c.reproduceInterval - now
  }

  /** The store key shared by produce and validate: scene id, a dash, the number. */
  function Key(sceneID: string, number: string): (k: string)
    ensures |k| == |sceneID| + 1 + |number|
    ensures k[..|sceneID|] == sceneID && k[|sceneID|] == '-' && k[|sceneID| + 1..] == number
  {
    sceneID + "-" + number
  }

  /** A stored code that is still valid and whose re-send interval has not passed blocks a new one. */
  predicate Throttled(store: map<string, Code>, k: string, now: int) {
    k in store && IsValid(store[k], now) && Remain(store[k], now) > 0
  }

  /** The decision of `Validate` once the skip hook has declined. */
  function Check(store: map<string, Code>, k: string, cd: string, now: int): (r: Option<SmsError>)
  {
    if k !in store || !IsValid(store[k], now) then Some(Invalid)
    else if store[k].code != cd then Some(Wrong)
    else None
  }

  /** The three answers of a check: invalid, wrong, or accepted, each for exactly its case. */
  lemma CheckCases(store: map<string, Code>, k: string, cd: string, now: int)
    ensures Check(store, k, cd, now) == Some(Invalid) <==> k !in store || !IsValid(store[k], now)
    ensures Check(store, k, cd, now) == Some(Wrong) <==> k in store && IsValid(store[k], now) && store[k].code != cd
    ensures Check(store, k, cd, now) == None <==> k in store && IsValid(store[k], now) && store[k].code == cd
  {
  }

  class Validator {
    var store: map<string, Code>
    /** The optional skip hook `fnSkip(sceneID, number, code)`. */
    var fnSkip: Option<(string, string, string) -> bool>
    /** The code generator, given the scene's code length. */
    var genCode: int -> string

    /** `NewValidator`: no skip hook, the given generator and store. */
    constructor (initial: map<string, Code>, gen: int -> string)
      ensures store == initial && fnSkip == None && genCode == gen
    {
      store := initial;
      fnSkip := None;
      genCode := gen;
    }

    method SetFnSkip(f: (string, string, string) -> bool)
      modifies this`fnSkip
      ensures fnSkip == Some(f)
    {
      fnSkip := Some(f);
    }

    method SetGenCode(g: int -> string)
      modifies this`genCode
      ensures genCode == g
    {
      genCode := g;
    }

    /**
     * `Produce`: a throttled key returns the stored code with the remaining
     * wait; otherwise a new code is generated, stored, and sent, and a
     * failed send deletes the key again.
     */
    method Produce(sceneID: string, number: string, now: int, scene: Result<Scene, string>,
                   setErr: Option<string>, sendErr: Option<string>)
      returns (code: Option<Code>, err: Option<SmsError>)
      modifies this`store
      ensures var k := Key(sceneID, number);
        if Throttled(old(store), k, now) then
          code == Some(old(store)[k]) && err == Some(ReproduceRemain(Remain(old(store)[k], now)))
          && store == old(store)
        else if scene.Failure? then
          code == None && err == Some(FetchFailed(scene.error)) && store == old(store)
        else if setErr.Some? then
          code == None && err == Some(StoreFailed(setErr.value)) && store == old(store)
        else if sendErr.Some? then
          code == None && err == Some(SendFailed(sendErr.value)) && store == old(store) - {k}
        else
          var c := Code(genCode(scene.value.codeLen), now, scene.value.validDuration, scene.value.reproduceInterval);
          code == Some(c) && err == None && store == old(store)[k := c]
    {
      var k := Key(sceneID, number);
      if k in store && IsValid(store[k], now) && Remain(store[k], now) > 0 {
        return Some(store[k]), Some(ReproduceRemain(Remain(store[k], now)));
      }
      if scene.Failure? {
        return None, Some(FetchFailed(scene.error));
      }
      var s := scene.value;
      var c := Code(genCode(s.codeLen), now, s.validDuration, s.reproduceInterval);
      if setErr.Some? {
        return None, Some(StoreFailed(setErr.value));
      }
      store := store[k := c];
      if sendErr.Some? {
        store := store - {k};
        return None, Some(SendFailed(sendErr.value));
      }
      return Some(c), None;
    }

    /**
     * `Validate`: the skip hook accepts without looking at the store;
     * otherwise the check decides, and an accepted code is deleted.
     */
    method Validate(sceneID: string, number: string, cd: string, now: int) returns (err: Option<SmsError>)
      modifies this`store
      ensures var skipped := fnSkip.Some? && fnSkip.value(sceneID, number, cd);
        && err == (if skipped then None else Check(old(store), Key(sceneID, number), cd, now))
        && store == (if !skipped && err == None then old(store) - {Key(sceneID, number)} else old(store))
    {
      if fnSkip.Some? {
        if fnSkip.value(sceneID, number, cd) {
          return None;
        }
      }
      var k := Key(sceneID, number);
      if k !in store || !IsValid(store[k], now) {
        return Some(Invalid);
      }
      if store[k].code != cd {
        return Some(Wrong);
      }
      store := store - {k};
      return None;
    }
  }

  // ---------------------------------------------------------------------
  // Properties across calls
  // ---------------------------------------------------------------------

  /**
   * A freshly produced code is valid exactly when the scene's duration is
   * positive, and its re-send wait is the scene's whole interval.
   */
  lemma FreshCode(c: Code, now: int)
    requires c.produceAt == now
    ensures IsValid(c, now) <==> c.validDuration > 0
    ensures Remain(c, now) == c.reproduceInterval
  {
  }

  /** Asking again at once after a successful produce is throttled when both durations are positive. */
  lemma ProduceThenProduceThrottled(store: map<string, Code>, k: string, c: Code, now: int)
    requires c.produceAt == now && c.validDuration > 0 && c.reproduceInterval > 0
    ensures Throttled(store[k := c], k, now)
  {
  }

  /** The delivered code is accepted while valid, and any other input is wrong. */
  lemma ProduceThenValidate(store: map<string, Code>, k: string, c: Code, cd: string, now: int)
    requires IsValid(c, now)
    ensures Check(store[k := c], k, cd, now) == (if cd == c.code then None else Some(Wrong))
  {
  }

  /** A wrong attempt keeps the code, so the right one still succeeds afterwards. */
  lemma WrongKeepsCode(store: map<string, Code>, k: string, cd: string, now: int)
    requires Check(store, k, cd, now) == Some(Wrong)
    ensures Check(store, k, store[k].code, now) == None
  {
  }

  /** One-shot: after an accepted check deletes the key, the same code is invalid. */
  lemma ValidateOnce(store: map<string, Code>, k: string, cd: string, now: int, later: int)
    requires Check(store, k, cd, now) == None
    ensures Check(store - {k}, k, cd, later) == Some(Invalid)
  {
  }

  /** A code is invalid from `produceAt + validDuration` on. */
  lemma ExpiredIsInvalid(store: map<string, Code>, k: string, cd: string, now: int)
    requires k in store && now >= store[k].produceAt + store[k].validDuration
    ensures Check(store, k, cd, now) == Some(Invalid)
  {
  }

  /** Keys of scene ids without a dash identify the scene and the number. */
  lemma KeyInjective(s1: string, n1: string, s2: string, n2: string)
    requires '-' !in s1 && '-' !in s2
    requires Key(s1, n1) == Key(s2, n2)
    ensures s1 == s2 && n1 == n2
  {
  }

  /** With a dash in the scene id, two different (scene, number) pairs share a store key. */
  lemma KeyCollision()
    ensures Key("a-b", "c") == Key("a", "b-c")
  {
  }
}
