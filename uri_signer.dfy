/**
 * `UriSigner`: adds a keyed hash (and optionally an expiry timestamp) to the
 * query of a URL, and later checks both.
 *
 * The keyed hash `base64_encode(hash_hmac('sha256', $uri, $secret, true))`
 * is left abstract: a deterministic function of the secret and the canonical
 * string, whose result has the 44 characters of a base64-encoded 32-byte MAC.
 * The clock is the reading `now` handed to each call; None stands for a
 * signer constructed without a clock.
 */
module Signer {
  import opened Wrappers
  import opened PhpStrings
  import opened PhpArray
  import opened CanonicalUrl

  type Digest = s: string | |s| == 44 witness seq(44, _ => 'A')

  /** The immutable configuration the constructor stores. */
  datatype Config = Config(
    secret: string,
    hashParameter: string,
    timestampParameter: string,
    keyedHash: (string, string) -> Digest)

  /** The two ways signing fails, and the expiry that checking reports. */
  datatype SignerError =
    | MissingClockComponent
    | TimestampParameterAlreadyPresent
    | ExpiredUrl(expiresAt: int, now: int)

  /**
   * The keyed hash of a canonical string. It is never the PHP-false "" or "0",
   * because every `Digest` has the 44 characters of a base64-encoded 32-byte MAC.
   */
  function ComputeHash(cfg: Config, uri: string): (r: Digest)
    ensures Truthy(r)
  {
    cfg.keyedHash(cfg.secret, uri)
  }

  /** A null or non-positive expiry adds no timestamp. */
  predicate ExpiryRequested(expiresInSeconds: Option<int>) {
    expiresInSeconds.Some? && expiresInSeconds.value > 0
  }

  /**
   * The first half of `sign`: with an expiry requested, fail without a clock
   * or when the URL already carries the timestamp parameter, and otherwise
   * append the timestamp `now + expiresInSeconds`; with none, keep the
   * parameters as they are.
   */
  function Stamp(cfg: Config, params: Params, expiresInSeconds: Option<int>, now: Option<int>)
    : (r: Result<Params, SignerError>)
    requires UniqueKeys(params)
    ensures r == Err(MissingClockComponent) <==> ExpiryRequested(expiresInSeconds) && now.None?
    ensures r == Err(TimestampParameterAlreadyPresent)
        <==> ExpiryRequested(expiresInSeconds) && now.Some? && HasKey(params, cfg.timestampParameter)
    ensures r.Err? ==> !r.error.ExpiredUrl?
    ensures r.Ok? ==> UniqueKeys(r.value)
    ensures r.Ok? && !ExpiryRequested(expiresInSeconds) ==> r.value == params
    ensures r.Ok? && ExpiryRequested(expiresInSeconds) ==>
      r.value == params + [(cfg.timestampParameter, IntToString(now.value + expiresInSeconds.value))]
  {
    if !ExpiryRequested(expiresInSeconds) then Ok(params)
    else if now.None? then Err(MissingClockComponent)
    else if HasKey(params, cfg.timestampParameter) then Err(TimestampParameterAlreadyPresent)
    else Ok(Put(params, cfg.timestampParameter, IntToString(now.value + expiresInSeconds.value)))
  }

  /**
   * The parameters `sign` puts in the URL it returns: the stamped ones plus
   * the hash parameter, whose value is the keyed hash of the canonical string
   * of the stamped parameters (the timestamp included, the hash itself not).
   */
  function SignedParams(cfg: Config, url: Url, params: Params, expiresInSeconds: Option<int>, now: Option<int>)
    : (r: Result<Params, SignerError>)
    requires UniqueKeys(params)
    ensures r.Ok? <==> Stamp(cfg, params, expiresInSeconds, now).Ok?
    ensures r.Err? ==> r.error == Stamp(cfg, params, expiresInSeconds, now).error
    ensures r.Ok? ==> UniqueKeys(r.value)
    ensures r.Ok? ==>
      Lookup(r.value, cfg.hashParameter)
      == Some(ComputeHash(cfg, BuildUrl(url, Stamp(cfg, params, expiresInSeconds, now).value)))
  {
    match Stamp(cfg, params, expiresInSeconds, now)
    case Err(e) => Err(e)
    case Ok(p) =>
      var hash := ComputeHash(cfg, BuildUrl(url, p));
      PutLookup(p, cfg.hashParameter, hash, cfg.hashParameter);
      Ok(Put(p, cfg.hashParameter, hash))
  }

  /**
   * Signing changes no parameter but the two reserved ones: every other key
   * reads as before, and the timestamp is `now + expiresInSeconds` when an
   * expiry was requested and untouched otherwise.
   */
  lemma SignKeepsOtherParameters(
    cfg: Config, url: Url, params: Params, expiresInSeconds: Option<int>, now: Option<int>, j: string)
    requires UniqueKeys(params) && SignedParams(cfg, url, params, expiresInSeconds, now).Ok?
    requires j != cfg.hashParameter
    ensures Lookup(SignedParams(cfg, url, params, expiresInSeconds, now).value, j) ==
      if j == cfg.timestampParameter && ExpiryRequested(expiresInSeconds)
      then Some(IntToString(now.value + expiresInSeconds.value))
      else Lookup(params, j)
  {
    var stamped := Stamp(cfg, params, expiresInSeconds, now).value;
    PutLookup(stamped, cfg.hashParameter, ComputeHash(cfg, BuildUrl(url, stamped)), j);
    if ExpiryRequested(expiresInSeconds) {
      PutLookup(params, cfg.timestampParameter, IntToString(now.value + expiresInSeconds.value), j);
    }
  }

  /**
   * When the URL carried no hash parameter, the hash is appended as the last
   * parameter, after the timestamp.
   */
  lemma HashIsAddedLast(cfg: Config, url: Url, params: Params, expiresInSeconds: Option<int>, now: Option<int>)
    requires UniqueKeys(params) && SignedParams(cfg, url, params, expiresInSeconds, now).Ok?
    requires !HasKey(params, cfg.hashParameter)
    requires ExpiryRequested(expiresInSeconds) ==> cfg.hashParameter != cfg.timestampParameter
    ensures var stamped := Stamp(cfg, params, expiresInSeconds, now).value;
      SignedParams(cfg, url, params, expiresInSeconds, now).value
      == stamped + [(cfg.hashParameter, ComputeHash(cfg, BuildUrl(url, stamped)))]
  {
    if ExpiryRequested(expiresInSeconds) {
      PutLookup(params, cfg.timestampParameter, IntToString(now.value + expiresInSeconds.value), cfg.hashParameter);
    }
  }

  /**
   * The hash the URL carries is present, PHP-non-empty, and equal to the keyed
   * hash of the canonical string of all the other parameters.
   */
  predicate Authentic(cfg: Config, url: Url, params: Params)
    requires UniqueKeys(params)
  {
    var supplied := Lookup(params, cfg.hashParameter);
    supplied.Some? && Truthy(supplied.value)
    && supplied.value == ComputeHash(cfg, BuildUrl(url, Remove(params, cfg.hashParameter)))
  }

  /**
   * The expiry test `check` applies to an authentic URL: no timestamp never
   * expires; a timestamp at or before now is reported as expired, with both
   * times; without a clock a timestamp cannot be compared and is reported as
   * a missing clock. This verdict is never a plain false.
   */
  function ExpiryVerdict(stamp: Option<string>, now: Option<int>): (r: Result<bool, SignerError>)
    ensures r != Ok(false)
    ensures r == Ok(true) <==> stamp.None? || (now.Some? && ToInt(stamp.value) > now.value)
    ensures r == Err(MissingClockComponent) <==> stamp.Some? && now.None?
    ensures r.Err? && now.Some? ==>
      r.error == ExpiredUrl(ToInt(stamp.value), now.value) && r.error.expiresAt <= r.error.now
  {
    match stamp
    case None => Ok(true)
    case Some(s) =>
      if now.None? then Err(MissingClockComponent)
      else if ToInt(s) <= now.value then Err(ExpiredUrl(ToInt(s), now.value))
      else Ok(true)
  }

  /**
   * `check`: false exactly for a URL that is not authentic; for an authentic
   * one, the expiry verdict on the timestamp it carries.
   */
  function CheckParams(cfg: Config, url: Url, params: Params, now: Option<int>)
    : (r: Result<bool, SignerError>)
    requires UniqueKeys(params)
    ensures r == Ok(false) <==> !Authentic(cfg, url, params)
    ensures Authentic(cfg, url, params) ==>
      r == ExpiryVerdict(Lookup(Remove(params, cfg.hashParameter), cfg.timestampParameter), now)
  {
    var supplied := Lookup(params, cfg.hashParameter);
    if supplied.None? || !Truthy(supplied.value) then Ok(false)
    else
      var rest := Remove(params, cfg.hashParameter);
      if ComputeHash(cfg, BuildUrl(url, rest)) != supplied.value then Ok(false)
      else ExpiryVerdict(Lookup(rest, cfg.timestampParameter), now)
  }

  /** Checking depends only on which key/value pairs the URL carries, not on their order. */
  lemma CheckDependsOnlyOnEntries(cfg: Config, url: Url, p: Params, q: Params, now: Option<int>)
    requires UniqueKeys(p) && UniqueKeys(q) && Entries(p) == Entries(q)
    ensures CheckParams(cfg, url, p, now) == CheckParams(cfg, url, q, now)
  {
    var h := cfg.hashParameter;
    LookupDependsOnlyOnEntries(p, q, h);
    var p', q' := Remove(p, h), Remove(q, h);
    forall e ensures e in Entries(p') <==> e in Entries(q') {
      assert e in p <==> e in Entries(q);
    }
    BuildUrlDependsOnlyOnEntries(url, p', q');
    LookupDependsOnlyOnEntries(p', q', cfg.timestampParameter);
  }

  /** Checking the parameters in `ksort` order gives the same answer as in any other order. */
  lemma CheckOfSortedParams(cfg: Config, url: Url, p: Params, now: Option<int>)
    requires UniqueKeys(p)
    ensures UniqueKeys(KSort(p)) && CheckParams(cfg, url, KSort(p), now) == CheckParams(cfg, url, p, now)
  {
    SortedHasUniqueKeys(KSort(p));
    KSortEntries(p);
    CheckDependsOnlyOnEntries(cfg, url, KSort(p), p, now);
  }

  /** A URL whose hash parameter was stripped, or replaced by any other value, is rejected. */
  lemma TamperedHashRejected(cfg: Config, url: Url, params: Params, forged: string, now: Option<int>)
    requires UniqueKeys(params) && Authentic(cfg, url, params)
    requires forged != Lookup(params, cfg.hashParameter).value
    ensures CheckParams(cfg, url, Remove(params, cfg.hashParameter), now) == Ok(false)
    ensures CheckParams(cfg, url, Put(params, cfg.hashParameter, forged), now) == Ok(false)
  {
    var h := cfg.hashParameter;
    var tampered := Put(params, h, forged);
    PutLookup(params, h, forged, h);
    assert Entries(Remove(tampered, h)) == Entries(Remove(params, h));
    BuildUrlDependsOnlyOnEntries(url, Remove(tampered, h), Remove(params, h));
  }

  /**
   * Changing the parameters other than the hash changes the canonical string
   * the hash covers. So two parameter arrays of byte strings that differ
   * outside the hash and both check as authentic under the same hash value
   * are a collision of the keyed hash: two different strings with one digest.
   */
  lemma TamperedParametersNeedCollision(cfg: Config, url: Url, p: Params, q: Params)
    requires UniqueKeys(p) && UniqueKeys(q) && ByteParams(p) && ByteParams(q)
    requires Authentic(cfg, url, p) && Authentic(cfg, url, q)
    requires Lookup(p, cfg.hashParameter) == Lookup(q, cfg.hashParameter)
    requires Entries(Remove(p, cfg.hashParameter)) != Entries(Remove(q, cfg.hashParameter))
    ensures var s, t := BuildUrl(url, Remove(p, cfg.hashParameter)), BuildUrl(url, Remove(q, cfg.hashParameter));
      s != t && cfg.keyedHash(cfg.secret, s) == cfg.keyedHash(cfg.secret, t)
  {
    var p', q' := Remove(p, cfg.hashParameter), Remove(q, cfg.hashParameter);
    assert ByteParams(p') && ByteParams(q');
    BuildUrlDeterminesEntries(url, p', q');
  }

  /**
   * Changing the path or the host changes the canonical string the hash
   * covers. So a URL whose path or host was changed, and which still checks
   * as authentic with the same parameters (the same hash value among them),
   * is a collision of the keyed hash.
   */
  lemma TamperedPathOrHostNeedsCollision(cfg: Config, url: Url, url': Url, params: Params)
    requires UniqueKeys(params) && PathOrHostChanged(url, url')
    requires Authentic(cfg, url, params) && Authentic(cfg, url', params)
    ensures var rest := Remove(params, cfg.hashParameter);
      var s, t := BuildUrl(url, rest), BuildUrl(url', rest);
      s != t && cfg.keyedHash(cfg.secret, s) == cfg.keyedHash(cfg.secret, t)
  {
    BuildUrlSensitiveToPathAndHost(url, url', Remove(params, cfg.hashParameter));
  }

  /**
   * Appending to parameters that carry no hash the keyed hash of their own
   * canonical string makes them authentic: checking them leaves only the
   * expiry verdict.
   */
  lemma AppendedHashChecks(cfg: Config, url: Url, stamped: Params, now: Option<int>)
    requires UniqueKeys(stamped) && !HasKey(stamped, cfg.hashParameter)
    ensures var signed := stamped + [(cfg.hashParameter, ComputeHash(cfg, BuildUrl(url, stamped)))];
      UniqueKeys(signed)
      && CheckParams(cfg, url, signed, now) == ExpiryVerdict(Lookup(stamped, cfg.timestampParameter), now)
  {
    var h := cfg.hashParameter;
    var hash := ComputeHash(cfg, BuildUrl(url, stamped));
    var signed := stamped + [(h, hash)];
    assert signed == Put(stamped, h, hash);
    PutLookup(stamped, h, hash, h);
    RemoveAfterAppend(stamped, h, hash);
    assert Remove(signed, h) == stamped;
    assert Authentic(cfg, url, signed);
  }

  /**
   * What checking a URL signed at `now` yields at `checkNow`: true without an
   * expiry; with one, true strictly before `now + expiresInSeconds` and the
   * expiry error from then on (or the missing-clock error when there is no
   * clock to check with).
   */
  function ExpectedOutcome(expiresInSeconds: Option<int>, now: Option<int>, checkNow: Option<int>)
    : Result<bool, SignerError>
    requires ExpiryRequested(expiresInSeconds) ==> now.Some?
  {
    if !ExpiryRequested(expiresInSeconds) then Ok(true)
    else
      var expiresAt := now.value + expiresInSeconds.value;
      if checkNow.None? then Err(MissingClockComponent)
      else if expiresAt <= checkNow.value then Err(ExpiredUrl(expiresAt, checkNow.value))
      else Ok(true)
  }

  /**
   * Round trip: a URL that does not already carry the reserved parameters,
   * once signed, checks as authentic, and expires exactly as requested.
   */
  lemma {:induction false} SignThenCheck(
    cfg: Config, url: Url, params: Params, expiresInSeconds: Option<int>, now: Option<int>, checkNow: Option<int>)
    requires UniqueKeys(params)
    requires !HasKey(params, cfg.hashParameter) && !HasKey(params, cfg.timestampParameter)
    requires ExpiryRequested(expiresInSeconds) ==> now.Some? && cfg.hashParameter != cfg.timestampParameter
    ensures SignedParams(cfg, url, params, expiresInSeconds, now).Ok?
    ensures CheckParams(cfg, url, SignedParams(cfg, url, params, expiresInSeconds, now).value, checkNow)
            == ExpectedOutcome(expiresInSeconds, now, checkNow)
  {
    StampedParameters(cfg, params, expiresInSeconds, now, checkNow);
    var stamped := Stamp(cfg, params, expiresInSeconds, now).value;
    HashIsAddedLast(cfg, url, params, expiresInSeconds, now);
    AppendedHashChecks(cfg, url, stamped, checkNow);
  }

  /**
   * Stamping parameters free of both reserved keys succeeds, adds no hash
   * parameter, and leaves a timestamp whose expiry verdict at `checkNow` is
   * the expected outcome.
   */
  lemma StampedParameters(
    cfg: Config, params: Params, expiresInSeconds: Option<int>, now: Option<int>, checkNow: Option<int>)
    requires UniqueKeys(params)
    requires !HasKey(params, cfg.hashParameter) && !HasKey(params, cfg.timestampParameter)
    requires ExpiryRequested(expiresInSeconds) ==> now.Some? && cfg.hashParameter != cfg.timestampParameter
    ensures Stamp(cfg, params, expiresInSeconds, now).Ok?
    ensures !HasKey(Stamp(cfg, params, expiresInSeconds, now).value, cfg.hashParameter)
    ensures ExpiryVerdict(Lookup(Stamp(cfg, params, expiresInSeconds, now).value, cfg.timestampParameter), checkNow)
            == ExpectedOutcome(expiresInSeconds, now, checkNow)
  {
    if ExpiryRequested(expiresInSeconds) {
      var h, ts := cfg.hashParameter, cfg.timestampParameter;
      var stamp := IntToString(now.value + expiresInSeconds.value);
      PutLookup(params, ts, stamp, h);
      PutLookup(params, ts, stamp, ts);
      VerdictOnRenderedStamp(expiresInSeconds, now, checkNow);
    }
  }

  /**
   * The expiry verdict on the timestamp the signer rendered is the outcome
   * expected at `checkNow`: the rendered decimal reads back as the same instant.
   */
  lemma VerdictOnRenderedStamp(expiresInSeconds: Option<int>, now: Option<int>, checkNow: Option<int>)
    requires ExpiryRequested(expiresInSeconds) && now.Some?
    ensures ExpiryVerdict(Some(IntToString(now.value + expiresInSeconds.value)), checkNow)
            == ExpectedOutcome(expiresInSeconds, now, checkNow)
  {
    ToIntOfIntToString(now.value + expiresInSeconds.value);
  }

  /**
   * The signed URL lists its parameters in `ksort` order, and that is the
   * order in which they are read back when it is checked: the round trip
   * holds for them too.
   */
  lemma SignedUrlChecks(
    cfg: Config, url: Url, params: Params, expiresInSeconds: Option<int>, now: Option<int>, checkNow: Option<int>)
    requires UniqueKeys(params)
    requires !HasKey(params, cfg.hashParameter) && !HasKey(params, cfg.timestampParameter)
    requires ExpiryRequested(expiresInSeconds) ==> now.Some? && cfg.hashParameter != cfg.timestampParameter
    ensures SignedParams(cfg, url, params, expiresInSeconds, now).Ok?
    ensures CheckParams(cfg, url, KSort(SignedParams(cfg, url, params, expiresInSeconds, now).value), checkNow)
            == ExpectedOutcome(expiresInSeconds, now, checkNow)
  {
    SignThenCheck(cfg, url, params, expiresInSeconds, now, checkNow);
    CheckOfSortedParams(cfg, url, SignedParams(cfg, url, params, expiresInSeconds, now).value, checkNow);
  }

  /** Stamping treats two orderings of the same pairs alike. */
  lemma StampDependsOnlyOnEntries(cfg: Config, p: Params, q: Params, expiresInSeconds: Option<int>, now: Option<int>)
    requires UniqueKeys(p) && UniqueKeys(q) && Entries(p) == Entries(q)
    ensures Stamp(cfg, p, expiresInSeconds, now).Ok? == Stamp(cfg, q, expiresInSeconds, now).Ok?
    ensures Stamp(cfg, p, expiresInSeconds, now).Err? ==>
      Stamp(cfg, p, expiresInSeconds, now).error == Stamp(cfg, q, expiresInSeconds, now).error
    ensures Stamp(cfg, p, expiresInSeconds, now).Ok? ==>
      Entries(Stamp(cfg, p, expiresInSeconds, now).value) == Entries(Stamp(cfg, q, expiresInSeconds, now).value)
  {
    LookupDependsOnlyOnEntries(p, q, cfg.timestampParameter);
    var stP, stQ := Stamp(cfg, p, expiresInSeconds, now), Stamp(cfg, q, expiresInSeconds, now);
    if stP.Ok? && ExpiryRequested(expiresInSeconds) {
      var stamp := (cfg.timestampParameter, IntToString(now.value + expiresInSeconds.value));
      forall e ensures e in Entries(stP.value) <==> e in Entries(stQ.value) {
        assert e in p <==> e in Entries(q);
        assert e in stP.value <==> e in p || e == stamp;
        assert e in stQ.value <==> e in q || e == stamp;
      }
    }
  }

  /**
   * Signing depends only on which key/value pairs the URL carries: two URLs
   * differing only in the order of their parameters fail alike, or get the
   * same hash and the same signed string.
   */
  lemma SignDependsOnlyOnEntries(
    cfg: Config, url: Url, p: Params, q: Params, expiresInSeconds: Option<int>, now: Option<int>)
    requires UniqueKeys(p) && UniqueKeys(q) && Entries(p) == Entries(q)
    ensures SignedParams(cfg, url, p, expiresInSeconds, now).Ok? == SignedParams(cfg, url, q, expiresInSeconds, now).Ok?
    ensures SignedParams(cfg, url, p, expiresInSeconds, now).Err? ==>
      SignedParams(cfg, url, p, expiresInSeconds, now).error == SignedParams(cfg, url, q, expiresInSeconds, now).error
    ensures SignedParams(cfg, url, p, expiresInSeconds, now).Ok? ==>
      var sp, sq := SignedParams(cfg, url, p, expiresInSeconds, now).value, SignedParams(cfg, url, q, expiresInSeconds, now).value;
      Lookup(sp, cfg.hashParameter) == Lookup(sq, cfg.hashParameter) && BuildUrl(url, sp) == BuildUrl(url, sq)
  {
    StampDependsOnlyOnEntries(cfg, p, q, expiresInSeconds, now);
    var stP, stQ := Stamp(cfg, p, expiresInSeconds, now), Stamp(cfg, q, expiresInSeconds, now);
    if stP.Ok? {
      var h := cfg.hashParameter;
      var hash := ComputeHash(cfg, BuildUrl(url, stP.value));
      assert ComputeHash(cfg, BuildUrl(url, stQ.value)) == hash by {
        BuildUrlDependsOnlyOnEntries(url, stP.value, stQ.value);
      }
      var sp, sq := Put(stP.value, h, hash), Put(stQ.value, h, hash);
      assert SignedParams(cfg, url, p, expiresInSeconds, now).value == sp;
      assert SignedParams(cfg, url, q, expiresInSeconds, now).value == sq;
      assert Entries(sp) == Entries(sq) by {
        forall e ensures e in Entries(sp) <==> e in Entries(sq) {
          assert e in stP.value <==> e in Entries(stQ.value);
        }
      }
      BuildUrlDependsOnlyOnEntries(url, sp, sq);
    }
  }

  /**
   * The signer object. The constructor fixes the configuration and nothing
   * changes it afterwards; each call is handed the clock's reading, None when
   * the signer was built without a clock. The two methods build the local
   * parameter array step by step and agree with the functions above.
   */
  class UriSigner {
    const config: Config

    constructor(secret: string, keyedHash: (string, string) -> Digest,
                hashParameter: string := "_hash", timestampParameter: string := "_timestamp")
      ensures config.secret == secret && config.keyedHash == keyedHash
      ensures config.hashParameter == hashParameter && config.timestampParameter == timestampParameter
    {
      config := Config(secret, hashParameter, timestampParameter, keyedHash);
    }

    /** Signs the URL: the canonical string of the signed parameters, or the reason signing failed. */
    method Sign(url: Url, params: Params, expiresInSeconds: Option<int> := None, now: Option<int> := None)
      returns (r: Result<string, SignerError>)
      requires UniqueKeys(params)
      ensures r.Ok? <==> SignedParams(config, url, params, expiresInSeconds, now).Ok?
      ensures r.Err? ==> r.error == SignedParams(config, url, params, expiresInSeconds, now).error
      ensures r.Ok? ==> r.value == BuildUrl(url, SignedParams(config, url, params, expiresInSeconds, now).value)
    {
      var query := params;
      if expiresInSeconds.Some? && expiresInSeconds.value > 0 {
        if now.None? {
          return Err(MissingClockComponent);
        }
        if HasKey(query, config.timestampParameter) {
          return Err(TimestampParameterAlreadyPresent);
        }
        query := Put(query, config.timestampParameter, IntToString(now.value + expiresInSeconds.value));
      }
      assert Stamp(config, params, expiresInSeconds, now) == Ok(query);
      var uri := BuildUrl(url, query);
      query := Put(query, config.hashParameter, ComputeHash(config, uri));
      assert SignedParams(config, url, params, expiresInSeconds, now) == Ok(query);
      return Ok(BuildUrl(url, query));
    }

    /** Checks the hash and then the expiry of a URL read back into its components and parameters. */
    method Check(url: Url, params: Params, now: Option<int>) returns (r: Result<bool, SignerError>)
      requires UniqueKeys(params)
      ensures r == CheckParams(config, url, params, now)
    {
      var query := params;
      var hash := Lookup(query, config.hashParameter);
      if hash.None? || !Truthy(hash.value) {
        return Ok(false);
      }
      query := Remove(query, config.hashParameter);
      if ComputeHash(config, BuildUrl(url, query)) != hash.value {
        return Ok(false);
      }
      var stamp := Lookup(query, config.timestampParameter);
      if stamp.Some? {
        if now.None? {
          return Err(MissingClockComponent);
        }
        if ToInt(stamp.value) <= now.value {
          return Err(ExpiredUrl(ToInt(stamp.value), now.value));
        }
      }
      return Ok(true);
    }
  }
}
