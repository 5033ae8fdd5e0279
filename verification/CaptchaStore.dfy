/** Redis keys and values of the captcha login: how they are built and taken apart again. */
module CaptchaKeys {
  import opened Options

  function CaptchaKey(account: string, openid: string): string {
    "wechat:" + account + ":captcha:" + openid
  }

  function CodeIndexKey(account: string, code: string): string {
    "wechat:" + account + ":code:" + code
  }

  function AttemptsKey(key: string): string {
    key + ":attempts"
  }

  function StoredValue(code: string, openid: string): string {
    code + ":" + openid
  }

  /** The first position at which `pattern` occurs in `s`. */
  function Find(s: string, pattern: string): (at: Option<nat>)
    ensures at.Some? ==> at.value + |pattern| <= |s|
    decreases |s|
  {
    if pattern <= s then Some(0)
    else if s == [] then None
    else
      var rest := Find(s[1..], pattern);
      if rest.Some? then Some(rest.value + 1) else None
  }

  predicate OccursAt(s: string, pattern: string, i: nat) {
    i + |pattern| <= |s| && s[i..i + |pattern|] == pattern
  }

  lemma {:induction false} FindIsFirst(s: string, pattern: string)
    ensures Find(s, pattern).Some? ==> OccursAt(s, pattern, Find(s, pattern).value)
    ensures forall i: nat :: OccursAt(s, pattern, i) ==> Find(s, pattern).Some? && Find(s, pattern).value <= i
    decreases |s|
  {
    if pattern <= s {
      assert s[0..|pattern|] == pattern;
    } else {
      if s != [] {
        FindIsFirst(s[1..], pattern);
        var rest := Find(s[1..], pattern);
        if rest.Some? {
          assert s[rest.value + 1..rest.value + 1 + |pattern|] == s[1..][rest.value..rest.value + |pattern|];
        }
        forall i: nat | OccursAt(s, pattern, i)
          ensures OccursAt(s[1..], pattern, i - 1)
        {
          assert s[i..i + |pattern|] == s[1..][i - 1..i - 1 + |pattern|];
        }
      }
    }
  }

  /** What `splitn(2, ':')` yields when it has two parts. */
  function SplitStored(value: string): Option<(string, string)> {
    var colon := Find(value, ":");
    if colon.None? then None else Some((value[..colon.value], value[colon.value + 1..]))
  }

  /** The round trip holds for any openid at all, and for exactly the codes without a colon. */
  lemma StoredRoundTrip(code: string, openid: string)
    ensures SplitStored(StoredValue(code, openid)) == Some((code, openid)) <==> ':' !in code
  {
    var value := StoredValue(code, openid);
    FindIsFirst(value, ":");
    assert value[|code|..|code| + 1] == ":";
    assert OccursAt(value, ":", |code|);
    var colon := Find(value, ":").value;
    assert value[colon] == value[colon..colon + 1][0] == ':';
    assert value[..|code|] == code && value[|code| + 1..] == openid;
    if colon < |code| { assert value[colon] in code; }
    if ':' in code {
      var i :| 0 <= i < |code| && code[i] == ':';
      assert value[i..i + 1] == ":";
      assert OccursAt(value, ":", i);
      assert |value[..colon]| < |code|;
    }
  }

  /** The index key the consume script works out from the captcha key. */
  function DerivedIndexKey(key: string, code: string): Option<string> {
    var at := Find(key, ":captcha:");
    if at.None? then None else Some(key[..at.value] + ":code:" + code)
  }

  /** The account name does not make `:captcha:` occur before the place where it is put. */
  predicate Derivable(account: string) {
    Find("wechat:" + account + ":captcha", ":captcha:").None?
  }

  lemma EarlierOccurrence(account: string, openid: string, i: nat)
    requires i < |"wechat:" + account|
    ensures OccursAt(CaptchaKey(account, openid), ":captcha:", i)
       <==> OccursAt("wechat:" + account + ":captcha", ":captcha:", i)
  {
    var head := "wechat:" + account + ":captcha";
    assert CaptchaKey(account, openid) == head + (":" + openid);
    assert i + |":captcha:"| <= |head|;
    assert CaptchaKey(account, openid)[i..i + 9] == head[i..i + 9];
  }

  /** The key the script derives is the one the index was written under, for exactly the derivable accounts. */
  lemma DerivedKeyAgrees(account: string, openid: string, code: string)
    ensures DerivedIndexKey(CaptchaKey(account, openid), code) == Some(CodeIndexKey(account, code)) <==> Derivable(account)
  {
    var key, head, base := CaptchaKey(account, openid), "wechat:" + account + ":captcha", "wechat:" + account;
    FindIsFirst(key, ":captcha:");
    FindIsFirst(head, ":captcha:");
    assert key == base + (":captcha:" + openid) && head == base + ":captcha";
    assert key[|base|..|base| + 9] == ":captcha:";
    assert OccursAt(key, ":captcha:", |base|);
    var at := Find(key, ":captcha:").value;
    if at < |base| {
      EarlierOccurrence(account, openid, at);
      assert |key[..at] + ":code:" + code| < |CodeIndexKey(account, code)|;
    } else {
      assert key[..at] == base;
      if !Derivable(account) {
        var i := Find(head, ":captcha:").value;
        EarlierOccurrence(account, openid, i);
      }
    }
  }

  /** An account called `captcha` is not derivable: its index entries outlive their captchas. */
  lemma AccountNamedCaptcha()
    ensures !Derivable("captcha")
  {
    var head := "wechat:" + "captcha" + ":captcha";
    FindIsFirst(head, ":captcha:");
    assert head[6..15] == ":captcha:";
    assert OccursAt(head, ":captcha:", 6);
  }

  predicate EndsInAttempts(openid: string) {
    |openid| >= 9 && openid[|openid| - 9..] == ":attempts"
  }

  lemma AttemptsKeyIsCaptchaKey(account: string, openid: string)
    ensures AttemptsKey(CaptchaKey(account, openid)) == CaptchaKey(account, openid + ":attempts")
    ensures EndsInAttempts(openid + ":attempts")
  {
    var longer := openid + ":attempts";
    assert longer[|longer| - 9..] == ":attempts";
  }

  lemma CaptchaKeysDiffer(account: string, one: string, two: string)
    requires CaptchaKey(account, one) == CaptchaKey(account, two)
    ensures one == two
  {
    var n := |"wechat:" + account + ":captcha:"|;
    assert CaptchaKey(account, one)[n..] == one && CaptchaKey(account, two)[n..] == two;
  }

  lemma IndexKeysDiffer(account: string, one: string, two: string)
    requires CodeIndexKey(account, one) == CodeIndexKey(account, two)
    ensures one == two
  {
    var n := |"wechat:" + account + ":code:"|;
    assert CodeIndexKey(account, one)[n..] == one && CodeIndexKey(account, two)[n..] == two;
  }

  /** Whatever the account, the derived key is no captcha key of it, and no index key but at most the intended one. */
  lemma DerivedKeyElsewhere(account: string, openid: string, code: string, other: string)
    requires DerivedIndexKey(CaptchaKey(account, openid), code).Some?
    ensures DerivedIndexKey(CaptchaKey(account, openid), code).value != CaptchaKey(account, other)
    ensures DerivedIndexKey(CaptchaKey(account, openid), code).value == CodeIndexKey(account, other) ==> other == code
  {
    var key, base := CaptchaKey(account, openid), "wechat:" + account;
    var derived := DerivedIndexKey(key, code).value;
    FindIsFirst(key, ":captcha:");
    var at := Find(key, ":captcha:").value;
    assert key[|base|..|base| + 9] == ":captcha:";
    assert OccursAt(key, ":captcha:", |base|);
    assert derived[at + 2] == 'o';
    assert key[at + 2] == key[at..at + 9][2] == 'a';
    assert CaptchaKey(account, other)[..|base| + 9] == key[..|base| + 9];
    if at < |base| {
      assert CodeIndexKey(account, other)[at + 2] == key[at + 2] by {
        assert CodeIndexKey(account, other)[..|base| + 2] == key[..|base| + 2];
      }
    } else {
      assert derived == CodeIndexKey(account, code);
      if derived == CodeIndexKey(account, other) { IndexKeysDiffer(account, code, other); }
    }
  }

  lemma CaptchaKeyIsNoIndexKey(account: string, openid: string, code: string)
    ensures CaptchaKey(account, openid) != CodeIndexKey(account, code)
  {
    var n := |"wechat:" + account|;
    assert CaptchaKey(account, openid)[n + 2] == 'a';
    assert CodeIndexKey(account, code)[n + 2] == 'o';
  }
}

/** The Redis-backed captcha store and the service over it. */
module CaptchaStore {
  import opened Options
  import opened CaptchaKeys

  datatype Value = Text(text: string) | Count(count: nat)
  datatype Entry = Entry(value: Value, expireAt: Option<nat>)
  type Db = map<string, Entry>

  predicate Lasts(entry: Entry, now: nat) {
    entry.expireAt.None? || now < entry.expireAt.value
  }

  function Get(db: Db, now: nat, key: string): Option<Value> {
    if key in db && Lasts(db[key], now) then Some(db[key].value) else None
  }

  /** Code and openid of the captcha under `key`, when there is one. */
  function Peek(db: Db, now: nat, key: string): Option<(string, string)> {
    var v := Get(db, now, key);
    if v.Some? && v.value.Text? then SplitStored(v.value.text) else None
  }

  /** The consume script: the captcha, its attempts and its index entry go in one step. */
  function AfterConsume(db: Db, now: nat, key: string): Db {
    var v := Get(db, now, key);
    if v.None? then db
    else
      var kept := db - {key, AttemptsKey(key)};
      var parts := Peek(db, now, key);
      if parts.None? then kept
      else
        var index := DerivedIndexKey(key, parts.value.0);
        if index.None? then kept else kept - {index.value}
  }

  /** INCR: none when the key holds a text. */
  function CountAfterIncr(db: Db, now: nat, key: string): Option<nat> {
    var v := Get(db, now, key);
    if v.None? then Some(1) else if v.value.Count? then Some(v.value.count + 1) else None
  }

  /** INCR keeps the expiry of the counter it raises; a counter it starts has none. */
  function AfterIncr(db: Db, now: nat, key: string): Db {
    var n := CountAfterIncr(db, now, key);
    if n.None? then db
    else db[key := Entry(Count(n.value), if Get(db, now, key).Some? then db[key].expireAt else None)]
  }

  const ATTEMPTS_TTL: nat := 600

  function AfterExpire(db: Db, now: nat, key: string, ttl: nat): Db {
    if Get(db, now, key).Some? then db[key := db[key].(expireAt := Some(now + ttl))] else db
  }

  /** INCR, and EXPIRE if that command gets through. */
  function AfterCount(db: Db, now: nat, key: string, renewed: bool): Db {
    var raised := AfterIncr(db, now, key);
    if CountAfterIncr(db, now, key).Some? && renewed then AfterExpire(raised, now, key, ATTEMPTS_TTL) else raised
  }

  function AfterSet(db: Db, now: nat, account: string, openid: string, code: string, ttl: nat, indexOk: bool): Db {
    var key := CaptchaKey(account, openid);
    if Get(db, now, key).Some? then db
    else
      var held := db[key := Entry(Text(StoredValue(code, openid)), Some(now + ttl))];
      var indexed := if indexOk then held[CodeIndexKey(account, code) := Entry(Text(openid), Some(now + ttl))] else held;
      indexed - {AttemptsKey(key)}
  }

  function AfterDelete(db: Db, now: nat, account: string, key: string): Db {
    var parts := Peek(db, now, key);
    var unindexed := if parts.Some? then db - {CodeIndexKey(account, parts.value.0)} else db;
    unindexed - {key} - {AttemptsKey(key)}
  }

  class RedisCaptchaStore {
    const account: string
    var db: Db

    constructor (account: string)
      ensures this.account == account && db == map[]
    {
      this.account := account;
      db := map[];
    }

    method SetEx(now: nat, key: string, value: Value, ttl: nat)
      requires ttl > 0
      modifies this`db
      ensures db == old(db)[key := Entry(value, Some(now + ttl))]
    {
      db := db[key := Entry(value, Some(now + ttl))];
    }

    method SetNxEx(now: nat, key: string, value: Value, ttl: nat) returns (isSet: bool)
      requires ttl > 0
      modifies this`db
      ensures isSet <==> Get(old(db), now, key).None?
      ensures db == if isSet then old(db)[key := Entry(value, Some(now + ttl))] else old(db)
    {
      isSet := Get(db, now, key).None?;
      if isSet { SetEx(now, key, value, ttl); }
    }

    method Del(key: string)
      modifies this`db
      ensures db == old(db) - {key}
    {
      db := db - {key};
    }

    /** `indexOk` says whether the best-effort index write succeeds. */
    method SetCaptchaNx(now: nat, openid: string, code: string, ttl: nat, indexOk: bool) returns (isSet: bool)
      requires ttl > 0
      modifies this`db
      ensures isSet <==> Get(old(db), now, CaptchaKey(account, openid)).None?
      ensures db == AfterSet(old(db), now, account, openid, code, ttl, indexOk)
      // the captcha and, if that write gets through, its index entry live equally long, with no attempt counted
      ensures var key, index := CaptchaKey(account, openid), CodeIndexKey(account, code);
              && (!isSet ==> db == old(db))
              && (isSet && key != index ==>
                    && key in db && db[key] == Entry(Text(code + ":" + openid), Some(now + ttl))
                    && (AttemptsKey(key) != index && indexOk ==> index in db && db[index] == Entry(Text(openid), Some(now + ttl))))
              && (isSet ==> AttemptsKey(key) !in db)
              && forall k :: k != key && k != index && k != AttemptsKey(key) ==>
                   (k in db <==> k in old(db)) && (k in db ==> db[k] == old(db)[k])
    {
      var key := CaptchaKey(account, openid);
      isSet := SetNxEx(now, key, Text(StoredValue(code, openid)), ttl);
      if !isSet { return; }
      if indexOk {
        SetEx(now, CodeIndexKey(account, code), Text(openid), ttl);
      }
      Del(AttemptsKey(key));
    }

    method ConsumeCaptcha(now: nat, key: string) returns (parts: Option<(string, string)>)
      modifies this`db
      ensures parts == Peek(old(db), now, key)
      ensures db == AfterConsume(old(db), now, key)
      ensures Get(old(db), now, key).None? ==> db == old(db)
      ensures Get(old(db), now, key).Some? ==> key !in db && AttemptsKey(key) !in db
      ensures parts.Some? ==> DerivedIndexKey(key, parts.value.0).Some? ==> DerivedIndexKey(key, parts.value.0).value !in db
      ensures forall k :: k in db ==> k in old(db) && db[k] == old(db)[k]
      ensures forall k :: k in old(db) && k !in db ==>
                || k == key || k == AttemptsKey(key)
                || (parts.Some? && DerivedIndexKey(key, parts.value.0) == Some(k))
    {
      var val := Get(db, now, key);
      if val.None? { return None; }
      parts := Peek(db, now, key);
      db := db - {key};
      db := db - {AttemptsKey(key)};
      if parts.Some? {
        var index := DerivedIndexKey(key, parts.value.0);
        if index.Some? { db := db - {index.value}; }
      }
      assert old(db) - {key} - {AttemptsKey(key)} == old(db) - {key, AttemptsKey(key)};
    }

    /** `renewed` says whether EXPIRE gets through after INCR; if not, the caller sees an error. */
    method IncrFailedAttempts(now: nat, key: string, renewed: bool) returns (attempts: Option<nat>)
      modifies this`db
      ensures attempts == if renewed then CountAfterIncr(old(db), now, AttemptsKey(key)) else None
      ensures db == AfterCount(old(db), now, AttemptsKey(key), renewed)
      // one more than a live counter shows, or 1; for ten minutes if EXPIRE gets through
      ensures var att := AttemptsKey(key);
              var v := Get(old(db), now, att);
              && (v.Some? && v.value.Text? ==> attempts.None? && db == old(db))
              && (!(v.Some? && v.value.Text?) ==>
                    var n := 1 + if v.Some? then v.value.count else 0;
                    && attempts == (if renewed then Some(n) else None)
                    && db == old(db)[att := Entry(Count(n), if renewed then Some(now + 600)
                                                           else if v.Some? then old(db)[att].expireAt else None)])
    {
      var att := AttemptsKey(key);
      var count := CountAfterIncr(db, now, att);
      if count.None? { return None; }
      db := db[att := Entry(Count(count.value), if Get(db, now, att).Some? then db[att].expireAt else None)];
      if !renewed { return None; }
      if Get(db, now, att).Some? {
        db := db[att := db[att].(expireAt := Some(now + ATTEMPTS_TTL))];
      }
      attempts := count;
    }

    method DeleteCaptcha(now: nat, key: string)
      modifies this`db
      ensures db == AfterDelete(old(db), now, account, key)
      ensures var parts := Peek(old(db), now, key);
              var gone := {key, AttemptsKey(key)} + if parts.Some? then {CodeIndexKey(account, parts.value.0)} else {};
              db == old(db) - gone
    {
      var parts := Peek(db, now, key);
      if parts.Some? {
        Del(CodeIndexKey(account, parts.value.0));
      }
      Del(key);
      Del(AttemptsKey(key));
    }
  }

  // ----------------------------------------------------------------- service

  const CHARSET: string := "ABCDEFGHJKMNPQRSTUVWXYZ23456789"

  predicate OfCharset(code: string) {
    forall c :: c in code ==> c in CHARSET
  }

  function LowerAscii(c: char): char {
    if 'A' <= c <= 'Z' then c - 'A' + 'a' else c
  }

  predicate EqIgnoreAsciiCase(a: string, b: string) {
    |a| == |b| && forall i :: 0 <= i < |a| ==> LowerAscii(a[i]) == LowerAscii(b[i])
  }

  /** The same letter in either case, or the same character. */
  predicate SameLetter(a: char, b: char) {
    a == b || ('a' <= a <= 'z' && b == a - 'a' + 'A') || ('A' <= a <= 'Z' && b == a - 'A' + 'a')
  }

  /** What admits a guess: equal length, and at each position the same letter up to case, or the same character. */
  lemma EqualUpToCaseExactly(a: string, b: string)
    ensures EqIgnoreAsciiCase(a, b) <==> |a| == |b| && forall i :: 0 <= i < |a| ==> SameLetter(a[i], b[i])
  {
    forall x: char, y: char ensures LowerAscii(x) == LowerAscii(y) <==> SameLetter(x, y) {
    }
  }

  datatype Outcome = Verified | NotFound | Mismatch | TooManyAttempts | StoreError

  function VerifyOutcome(db: Db, now: nat, account: string, openid: string, given: string, maxFailed: nat, renewed: bool): Outcome {
    var key := CaptchaKey(account, openid);
    var stored := Peek(db, now, key);
    if stored.None? then NotFound
    else if EqIgnoreAsciiCase(stored.value.0, given) then Verified
    else
      var n := CountAfterIncr(db, now, AttemptsKey(key));
      if n.None? || !renewed then StoreError else if n.value >= maxFailed then TooManyAttempts else Mismatch
  }

  function AfterVerify(db: Db, now: nat, account: string, openid: string, given: string, maxFailed: nat, renewed: bool): Db {
    var key := CaptchaKey(account, openid);
    match VerifyOutcome(db, now, account, openid, given, maxFailed, renewed)
    case NotFound => db
    case Verified => AfterConsume(db, now, key) - {AttemptsKey(key)}
    case StoreError => AfterCount(db, now, AttemptsKey(key), renewed)
    case Mismatch => AfterCount(db, now, AttemptsKey(key), renewed)
    case TooManyAttempts => AfterDelete(AfterCount(db, now, AttemptsKey(key), renewed), now, account, key)
  }

  class CaptchaService {
    const store: RedisCaptchaStore
    const captchaTtl: nat
    const maxFailedAttempts: nat

    constructor (store: RedisCaptchaStore, captchaTtl: nat, maxFailedAttempts: nat)
      ensures this.store == store && this.captchaTtl == captchaTtl && this.maxFailedAttempts == maxFailedAttempts
    {
      this.store, this.captchaTtl, this.maxFailedAttempts := store, captchaTtl, maxFailedAttempts;
    }

    /** `rolls` are the random indices, one per character. */
    method GenerateCode(rolls: seq<nat>) returns (code: string)
      requires forall i :: 0 <= i < |rolls| ==> rolls[i] < |CHARSET|
      ensures |code| == |rolls| && OfCharset(code) && ':' !in code
      ensures forall i :: 0 <= i < |rolls| ==> code[i] == "ABCDEFGHJKMNPQRSTUVWXYZ23456789"[rolls[i]]
    {
      code := "";
      for i := 0 to |rolls|
        invariant |code| == i && OfCharset(code)
        invariant forall k :: 0 <= k < i ==> code[k] == CHARSET[rolls[k]]
      {
        assert CHARSET[rolls[i]] in CHARSET;
        code := code + [CHARSET[rolls[i]]];
      }
      CharsetHasNoColon(code);
    }

    method Generate(now: nat, openid: string, rolls: seq<nat>, indexOk: bool) returns (code: Option<string>)
      requires captchaTtl > 0
      requires forall i :: 0 <= i < |rolls| ==> rolls[i] < |CHARSET|
      modifies store`db
      ensures code.None? <==> Get(old(store.db), now, CaptchaKey(store.account, openid)).Some?
      ensures code.None? ==> store.db == old(store.db)
      ensures code.Some? ==>
        |code.value| == |rolls| && OfCharset(code.value) &&
        (forall i :: 0 <= i < |rolls| ==> code.value[i] == CHARSET[rolls[i]]) &&
        store.db == AfterSet(old(store.db), now, store.account, openid, code.value, captchaTtl, indexOk)
    {
      var candidate := GenerateCode(rolls);
      var isSet := store.SetCaptchaNx(now, openid, candidate, captchaTtl, indexOk);
      code := if isSet then Some(candidate) else None;
    }

    /** A call that meets no other: what it answers and what it leaves in the store. */
    method VerifyForOpenid(now: nat, openid: string, given: string, renewed: bool) returns (outcome: Outcome)
      modifies store`db
      ensures outcome == VerifyOutcome(old(store.db), now, store.account, openid, given, maxFailedAttempts, renewed)
      ensures store.db == AfterVerify(old(store.db), now, store.account, openid, given, maxFailedAttempts, renewed)
      // without a live captcha nothing happens; with one, exactly its code in any letter case verifies
      ensures var stored := Peek(old(store.db), now, CaptchaKey(store.account, openid));
              && (outcome.NotFound? <==> stored.None?) && (stored.None? ==> store.db == old(store.db))
              && (outcome.Verified? <==> stored.Some? && |stored.value.0| == |given|
                                         && forall i :: 0 <= i < |given| ==> SameLetter(stored.value.0[i], given[i]))
      // a verified captcha is gone with its counter, and so is one that has cost the last attempt
      ensures outcome.Verified? || outcome.TooManyAttempts? ==>
                var key := CaptchaKey(store.account, openid);
                key !in store.db && AttemptsKey(key) !in store.db && store.db.Keys <= old(store.db).Keys
      ensures outcome.StoreError? <==>
                var stored := Peek(old(store.db), now, CaptchaKey(store.account, openid));
                var v := Get(old(store.db), now, AttemptsKey(CaptchaKey(store.account, openid)));
                stored.Some? && !outcome.Verified? && (!renewed || (v.Some? && v.value.Text?))
      // a mismatch counts one attempt more, of fewer than the limit, for ten minutes, and does nothing else
      ensures outcome.Mismatch? || outcome.TooManyAttempts? ==>
                var v := Get(old(store.db), now, AttemptsKey(CaptchaKey(store.account, openid)));
                && (v.Some? ==> v.value.Count?)
                && (outcome.Mismatch? <==> (if v.Some? then v.value.count else 0) + 1 < maxFailedAttempts)
      ensures outcome.Mismatch? ==>
                var att := AttemptsKey(CaptchaKey(store.account, openid));
                var v := Get(old(store.db), now, att);
                store.db == old(store.db)[att := Entry(Count(1 + if v.Some? then v.value.count else 0), Some(now + 600))]
    {
      ghost var compared := Peek(store.db, now, CaptchaKey(store.account, openid));
      if compared.Some? { EqualUpToCaseExactly(compared.value.0, given); }

      var key := CaptchaKey(store.account, openid);
      var stored := Peek(store.db, now, key);
      if stored.None? { return NotFound; }
      OwnKeysDiffer(key);
      hide CaptchaKey;
      hide AttemptsKey;
      hide EqIgnoreAsciiCase;
      hide SplitStored;
      hide DerivedIndexKey;
      hide CodeIndexKey;
      if !EqIgnoreAsciiCase(stored.value.0, given) {
        var attempts := store.IncrFailedAttempts(now, key, renewed);
        if attempts.None? { return StoreError; }
        if attempts.value >= maxFailedAttempts {
          store.DeleteCaptcha(now, key);
          return TooManyAttempts;
        }
        return Mismatch;
      }
      var consumed := store.ConsumeCaptcha(now, key);
      if consumed.None? { return NotFound; }
      store.Del(AttemptsKey(key));
      outcome := Verified;
    }
  }

  lemma OwnKeysDiffer(key: string)
    ensures AttemptsKey(key) != key
  {
  }

  lemma CharsetHasNoColon(code: string)
    requires OfCharset(code)
    ensures ':' !in code
  {
    assert ':' !in CHARSET;
  }
}

/** Runs of the captcha service: the index agrees with the captchas, and no captcha is used twice. */
module CaptchaTheorems {
  import opened Options
  import opened CaptchaKeys
  import opened CaptchaStore

  // ------------------------------------------------------------- index agreement

  /** The captcha of `openid`, when it is live, carries a colon-free code whose index entry leads back to `openid`. */
  predicate Indexed(db: Db, now: nat, account: string, openid: string) {
    var key := CaptchaKey(account, openid);
    Get(db, now, key).Some? ==>
      var parts := Peek(db, now, key);
      parts.Some? && parts.value.1 == openid && ':' !in parts.value.0 &&
      var index := CodeIndexKey(account, parts.value.0);
      index in db && db[index].value == Text(openid) && Outlasts(db[index], db[key])
  }

  /** The first entry lives at least as long as the second. */
  predicate Outlasts(a: Entry, b: Entry) {
    a.expireAt.None? || (b.expireAt.Some? && b.expireAt.value <= a.expireAt.value)
  }

  /** An openid that ends in `:attempts` would share its captcha key with the attempts counter of another one. */
  ghost predicate Agrees(db: Db, now: nat, account: string) {
    forall openid: string :: !EndsInAttempts(openid) ==> Indexed(db, now, account, openid)
  }

  /** A new code is one that no live captcha carries. */
  ghost predicate NewCode(db: Db, now: nat, account: string, code: string) {
    forall openid: string :: !EndsInAttempts(openid) ==>
      var parts := Peek(db, now, CaptchaKey(account, openid)); parts.Some? ==> parts.value.0 != code
  }

  /** Two stores show the same captcha of `openid` and the same index entry for its code. */
  predicate SameFor(a: Db, b: Db, now: nat, account: string, openid: string) {
    var key := CaptchaKey(account, openid);
    && (key in a <==> key in b)
    && (key in a ==>
          && a[key] == b[key]
          && var parts := Peek(a, now, key);
             parts.Some? ==>
               var index := CodeIndexKey(account, parts.value.0);
               (index in a <==> index in b) && (index in a ==> a[index] == b[index]))
  }

  lemma SameKeepsIndexed(a: Db, b: Db, now: nat, account: string, openid: string)
    requires Indexed(a, now, account, openid) && SameFor(a, b, now, account, openid)
    ensures Indexed(b, now, account, openid)
  {
  }

  lemma TimeKeepsAgreement(db: Db, now: nat, later: nat, account: string)
    requires Agrees(db, now, account) && now <= later
    ensures Agrees(db, later, account)
  {
    forall openid: string | !EndsInAttempts(openid)
      ensures Indexed(db, later, account, openid)
    {
      assert Indexed(db, now, account, openid);
    }
  }

  lemma AttemptsAreApart(account: string, openid: string, other: string, code: string)
    requires !EndsInAttempts(other)
    ensures AttemptsKey(CaptchaKey(account, openid)) != CaptchaKey(account, other)
    ensures AttemptsKey(CaptchaKey(account, openid)) != CodeIndexKey(account, code)
  {
    AttemptsKeyIsCaptchaKey(account, openid);
    if CaptchaKey(account, openid + ":attempts") == CaptchaKey(account, other) {
      CaptchaKeysDiffer(account, openid + ":attempts", other);
    }
    CaptchaKeyIsNoIndexKey(account, openid + ":attempts", code);
  }

  lemma SetKeepsAgreement(db: Db, now: nat, account: string, openid: string, code: string, ttl: nat)
    requires Agrees(db, now, account) && !EndsInAttempts(openid)
    requires ':' !in code && NewCode(db, now, account, code)
    ensures Agrees(AfterSet(db, now, account, openid, code, ttl, true), now, account)
  {
    var key, index := CaptchaKey(account, openid), CodeIndexKey(account, code);
    var after := AfterSet(db, now, account, openid, code, ttl, true);
    if Get(db, now, key).None? {
      forall other: string | !EndsInAttempts(other)
        ensures Indexed(after, now, account, other)
      {
        assert Indexed(db, now, account, other);
        CaptchaKeyIsNoIndexKey(account, other, code);
        CaptchaKeyIsNoIndexKey(account, openid, code);
        AttemptsAreApart(account, openid, other, code);
        if other == openid {
          StoredRoundTrip(code, openid);
        } else {
          OtherCaptchaUntouched(db, after, now, account, openid, other, code);
        }
      }
    }
  }

  /** What a write to one captcha and one index entry leaves alone. */
  ghost predicate ChangesOnly(a: Db, b: Db, account: string, openid: string, code: string) {
    forall k: string ::
      k != CaptchaKey(account, openid) && k != CodeIndexKey(account, code) && k != AttemptsKey(CaptchaKey(account, openid)) ==>
      (k in a <==> k in b) && (k in a ==> a[k] == b[k])
  }

  lemma OtherCaptchaUntouched(a: Db, b: Db, now: nat, account: string, openid: string, other: string, code: string)
    requires Indexed(a, now, account, other) && !EndsInAttempts(other) && other != openid
    requires ChangesOnly(a, b, account, openid, code)
    requires Peek(a, now, CaptchaKey(account, other)).Some? ==> Peek(a, now, CaptchaKey(account, other)).value.0 != code
    ensures Indexed(b, now, account, other)
  {
    var key := CaptchaKey(account, other);
    if key == CaptchaKey(account, openid) { CaptchaKeysDiffer(account, other, openid); }
    CaptchaKeyIsNoIndexKey(account, other, code);
    AttemptsAreApart(account, openid, other, code);
    var parts := Peek(a, now, key);
    if parts.Some? {
      if CodeIndexKey(account, parts.value.0) == CodeIndexKey(account, code) {
        IndexKeysDiffer(account, parts.value.0, code);
      }
      CaptchaKeyIsNoIndexKey(account, openid, parts.value.0);
      AttemptsAreApart(account, openid, other, parts.value.0);
    }
    SameKeepsIndexed(a, b, now, account, other);
  }

  lemma RemovalKeepsAgreement(db: Db, after: Db, now: nat, account: string, openid: string, code: string)
    requires Agrees(db, now, account) && !EndsInAttempts(openid)
    requires Peek(db, now, CaptchaKey(account, openid)).Some?
    requires Peek(db, now, CaptchaKey(account, openid)).value.0 == code
    requires ChangesOnly(db, after, account, openid, code) && CaptchaKey(account, openid) !in after
    ensures Agrees(after, now, account)
  {
    assert Indexed(db, now, account, openid);
    forall other: string | !EndsInAttempts(other)
      ensures Indexed(after, now, account, other)
    {
      assert Indexed(db, now, account, other);
      if other != openid {
        OtherCaptchaUntouched(db, after, now, account, openid, other, code);
      }
    }
  }

  lemma ConsumeKeepsAgreement(db: Db, now: nat, account: string, openid: string)
    requires Agrees(db, now, account) && !EndsInAttempts(openid)
    ensures Agrees(AfterConsume(db, now, CaptchaKey(account, openid)), now, account)
  {
    var key := CaptchaKey(account, openid);
    assert Indexed(db, now, account, openid);
    if Get(db, now, key).Some? {
      var code := Peek(db, now, key).value.0;
      var after := AfterConsume(db, now, key);
      forall other: string | !EndsInAttempts(other)
        ensures Indexed(after, now, account, other)
      {
        assert Indexed(db, now, account, other);
        ConsumeKeepsOthers(db, now, account, openid, other);
      }
    }
  }

  /** Consuming one captcha leaves any other captcha of the account and its index alone, also where the script derives a wrong key. */
  lemma ConsumeKeepsOthers(db: Db, now: nat, account: string, openid: string, other: string)
    requires Indexed(db, now, account, openid) && Indexed(db, now, account, other)
    requires !EndsInAttempts(openid) && !EndsInAttempts(other) && Get(db, now, CaptchaKey(account, openid)).Some?
    ensures Indexed(AfterConsume(db, now, CaptchaKey(account, openid)), now, account, other)
  {
    var key, another := CaptchaKey(account, openid), CaptchaKey(account, other);
    var code := Peek(db, now, key).value.0;
    if other != openid {
      if key == another { CaptchaKeysDiffer(account, openid, other); }
      AttemptsAreApart(account, openid, other, code);
      var parts := Peek(db, now, another);
      if DerivedIndexKey(key, code).Some? { DerivedKeyElsewhere(account, openid, code, other); }
      if parts.Some? {
        AttemptsAreApart(account, openid, other, parts.value.0);
        CaptchaKeyIsNoIndexKey(account, openid, parts.value.0);
        if DerivedIndexKey(key, code).Some? { DerivedKeyElsewhere(account, openid, code, parts.value.0); }
      }
      hide CaptchaKey;
      hide CodeIndexKey;
      hide AttemptsKey;
      hide DerivedIndexKey;
      hide SplitStored;
      SameKeepsIndexed(db, AfterConsume(db, now, key), now, account, other);
    }
  }

  lemma DeleteKeepsAgreement(db: Db, now: nat, account: string, openid: string)
    requires Agrees(db, now, account) && !EndsInAttempts(openid)
    requires Get(db, now, CaptchaKey(account, openid)).Some?
    ensures Agrees(AfterDelete(db, now, account, CaptchaKey(account, openid)), now, account)
  {
    var key := CaptchaKey(account, openid);
    assert Indexed(db, now, account, openid);
    var code := Peek(db, now, key).value.0;
    RemovalKeepsAgreement(db, AfterDelete(db, now, account, key), now, account, openid, code);
  }

  /** Agreement does not depend on the attempts counters. */
  lemma AttemptsKeepAgreement(db: Db, after: Db, now: nat, account: string, openid: string)
    requires Agrees(db, now, account)
    requires forall k: string :: k != AttemptsKey(CaptchaKey(account, openid)) ==>
      (k in db <==> k in after) && (k in db ==> db[k] == after[k])
    ensures Agrees(after, now, account)
  {
    forall other: string | !EndsInAttempts(other)
      ensures Indexed(after, now, account, other)
    {
      assert Indexed(db, now, account, other);
      AttemptsAreApart(account, openid, other, "");
      var parts := Peek(db, now, CaptchaKey(account, other));
      if parts.Some? {
        AttemptsAreApart(account, openid, other, parts.value.0);
      }
      SameKeepsIndexed(db, after, now, account, other);
    }
  }

  lemma VerifyKeepsAgreement(db: Db, now: nat, account: string, openid: string, given: string, maxFailed: nat, renewed: bool)
    requires Agrees(db, now, account) && !EndsInAttempts(openid)
    ensures Agrees(AfterVerify(db, now, account, openid, given, maxFailed, renewed), now, account)
  {
    var key := CaptchaKey(account, openid);
    var counted := AfterCount(db, now, AttemptsKey(key), renewed);
    AttemptsKeepAgreement(db, counted, now, account, openid);
    match VerifyOutcome(db, now, account, openid, given, maxFailed, renewed)
    case NotFound =>
    case StoreError =>
    case Verified =>
      ConsumeKeepsAgreement(db, now, account, openid);
      var consumed := AfterConsume(db, now, key);
      AttemptsKeepAgreement(consumed, consumed - {AttemptsKey(key)}, now, account, openid);
    case Mismatch =>
    case TooManyAttempts =>
      AttemptsAreApart(account, openid, openid, "");
      DeleteKeepsAgreement(counted, now, account, openid);
  }

  datatype Call =
    | Generate(now: nat, openid: string, code: string)
    | Verify(now: nat, openid: string, given: string, renewed: bool)

  datatype Settings = Settings(account: string, ttl: nat, maxFailed: nat)

  /** The store after one call whose index write succeeds. */
  function AfterCall(db: Db, c: Call, s: Settings): Db {
    match c
    case Generate(now, openid, code) => AfterSet(db, now, s.account, openid, code, s.ttl, true)
    case Verify(now, openid, given, renewed) => AfterVerify(db, now, s.account, openid, given, s.maxFailed, renewed)
  }

  function AfterCalls(db: Db, calls: seq<Call>, s: Settings): Db
    decreases |calls|
  {
    if calls == [] then db else AfterCalls(AfterCall(db, calls[0], s), calls[1..], s)
  }

  /** Calls one after another, in time order, whose generated codes are new among the live ones. */
  ghost predicate ProperRun(db: Db, from: nat, calls: seq<Call>, to: nat, s: Settings)
    decreases |calls|
  {
    if calls == [] then from <= to
    else
      && from <= calls[0].now
      && !EndsInAttempts(calls[0].openid)
      && (calls[0].Generate? ==> OfCharset(calls[0].code) && NewCode(db, calls[0].now, s.account, calls[0].code))
      && ProperRun(AfterCall(db, calls[0], s), calls[0].now, calls[1..], to, s)
  }

  lemma {:induction false} RunKeepsAgreement(db: Db, from: nat, calls: seq<Call>, to: nat, s: Settings)
    requires Agrees(db, from, s.account)
    requires ProperRun(db, from, calls, to, s)
    ensures Agrees(AfterCalls(db, calls, s), to, s.account)
    decreases |calls|
  {
    if calls == [] {
      TimeKeepsAgreement(db, from, to, s.account);
    } else {
      var c := calls[0];
      TimeKeepsAgreement(db, from, c.now, s.account);
      match c {
        case Generate(now, openid, code) =>
          CharsetHasNoColon(code);
          SetKeepsAgreement(db, now, s.account, openid, code, s.ttl);
        case Verify(now, openid, given, renewed) =>
          VerifyKeepsAgreement(db, now, s.account, openid, given, s.maxFailed, renewed);
      }
      RunKeepsAgreement(AfterCall(db, c, s), c.now, calls[1..], to, s);
    }
  }

  /**
   After any proper run, whoever holds a live code gets in with it: the index leads from the
   code to its openid, verification in any letter case succeeds, and afterwards the
   captcha is gone, and its index entry too unless the account is not derivable.
   Neither openid nor account matters otherwise, except that no openid ends in `:attempts`.
   */
  lemma LiveCodeLogsIn(calls: seq<Call>, now: nat, s: Settings, openid: string, code: string, given: string, renewed: bool)
    requires ProperRun(map[], 0, calls, now, s) && !EndsInAttempts(openid)
    requires var parts := Peek(AfterCalls(map[], calls, s), now, CaptchaKey(s.account, openid));
             parts.Some? && parts.value.0 == code
    requires EqIgnoreAsciiCase(code, given)
    ensures var db := AfterCalls(map[], calls, s);
            && Get(db, now, CodeIndexKey(s.account, code)) == Some(Text(openid))
            && VerifyOutcome(db, now, s.account, openid, given, s.maxFailed, renewed) == Verified
    ensures var after := AfterVerify(AfterCalls(map[], calls, s), now, s.account, openid, given, s.maxFailed, renewed);
            && CaptchaKey(s.account, openid) !in after
            && (CodeIndexKey(s.account, code) !in after <==> Derivable(s.account))
  {
    var db, key := AfterCalls(map[], calls, s), CaptchaKey(s.account, openid);
    RunKeepsAgreement(map[], 0, calls, now, s);
    assert Indexed(db, now, s.account, openid);
    ConsumeRemovesIndexExactly(db, now, s.account, openid, code);
    AttemptsAreApart(s.account, openid, openid, code);
    hide CaptchaKey;
    hide CodeIndexKey;
    hide AttemptsKey;
    hide Derivable;
    hide AfterConsume;
    hide SplitStored;
  }

  /** Consuming a captcha takes its index entry along for exactly the derivable accounts. */
  lemma ConsumeRemovesIndexExactly(db: Db, now: nat, account: string, openid: string, code: string)
    requires Peek(db, now, CaptchaKey(account, openid)).Some?
    requires Peek(db, now, CaptchaKey(account, openid)).value.0 == code
    requires CodeIndexKey(account, code) in db
    ensures CaptchaKey(account, openid) !in AfterConsume(db, now, CaptchaKey(account, openid))
    ensures CodeIndexKey(account, code) !in AfterConsume(db, now, CaptchaKey(account, openid)) <==> Derivable(account)
  {
    DerivedKeyAgrees(account, openid, code);
    CaptchaKeyIsNoIndexKey(account, openid, code);
    AttemptsKeyIsCaptchaKey(account, openid);
    CaptchaKeyIsNoIndexKey(account, openid + ":attempts", code);
  }

  /** Giving up on a captcha removes it and its index entry for every account. */
  lemma DeleteRemovesIndex(db: Db, now: nat, account: string, openid: string, code: string)
    requires Peek(db, now, CaptchaKey(account, openid)).Some?
    requires Peek(db, now, CaptchaKey(account, openid)).value.0 == code
    ensures var after := AfterDelete(db, now, account, CaptchaKey(account, openid));
            CaptchaKey(account, openid) !in after && CodeIndexKey(account, code) !in after
  {
  }

  // ---------------------------------------------------------------- interleaving

  /** Where a process is inside `generate` or `verify_for_openid`, between two Redis commands. */
  datatype Pc =
    | Idle
    | Indexing(openid: string, code: string)
    | Clearing(openid: string)
    | Matched(openid: string)
    | Mismatched(openid: string)
    | Counting(openid: string, attempts: nat)
    | GivingUp(openid: string)
    | DroppingIndex(openid: string, code: string)
    | DroppingCaptcha(openid: string)

  datatype Start = StartGenerate(openid: string, code: string) | StartVerify(openid: string, given: string)

  /** A command is answered, or it fails before or after the server ran it. */
  datatype Reply = Fine | Lost | Unanswered

  /** Process `p` takes its next command at `now`; an idle process begins `start`. */
  datatype Event = Event(p: nat, now: nat, start: Start, reply: Reply)

  datatype System = System(db: Db, pcs: map<nat, Pc>)

  function PcOf(s: System, p: nat): Pc {
    if p in s.pcs then s.pcs[p] else Idle
  }

  /** The first command of a call, when it is answered. */
  function Begin(db: Db, now: nat, start: Start, s: Settings): (Db, Pc) {
    var key := CaptchaKey(s.account, start.openid);
    match start
    case StartGenerate(openid, code) =>
      if Get(db, now, key).Some? then (db, Idle)
      else (db[key := Entry(Text(StoredValue(code, openid)), Some(now + s.ttl))], Indexing(openid, code))
    case StartVerify(openid, given) =>
      var stored := Peek(db, now, key);
      if stored.None? then (db, Idle)
      else if EqIgnoreAsciiCase(stored.value.0, given) then (db, Matched(openid))
      else (db, Mismatched(openid))
  }

  /** A later command, when it is answered. */
  function Continue(db: Db, now: nat, pc: Pc, s: Settings): (Db, Pc)
    requires !pc.Idle?
  {
    var key := CaptchaKey(s.account, pc.openid);
    match pc
    case Indexing(openid, code) =>
      (db[CodeIndexKey(s.account, code) := Entry(Text(openid), Some(now + s.ttl))], Clearing(openid))
    case Clearing(openid) => (db - {AttemptsKey(key)}, Idle)
    case Matched(openid) =>
      (AfterConsume(db, now, key), if Peek(db, now, key).Some? then Clearing(openid) else Idle)
    case Mismatched(openid) =>
      var n := CountAfterIncr(db, now, AttemptsKey(key));
      (AfterIncr(db, now, AttemptsKey(key)), if n.Some? then Counting(openid, n.value) else Idle)
    case Counting(openid, n) =>
      (AfterExpire(db, now, AttemptsKey(key), ATTEMPTS_TTL), if n >= s.maxFailed then GivingUp(openid) else Idle)
    case GivingUp(openid) =>
      var stored := Peek(db, now, key);
      (db, if stored.Some? then DroppingIndex(openid, stored.value.0) else DroppingCaptcha(openid))
    case DroppingIndex(openid, code) => (db - {CodeIndexKey(s.account, code)}, DroppingCaptcha(openid))
    case DroppingCaptcha(openid) => (db - {key}, Clearing(openid))
  }

  /** An error ends the call, except that of the best-effort index write. */
  function AfterError(pc: Pc): Pc {
    if pc.Indexing? then Clearing(pc.openid) else Idle
  }

  function Act(sys: System, e: Event, s: Settings): System {
    var pc := PcOf(sys, e.p);
    var r := if pc.Idle? then Begin(sys.db, e.now, e.start, s) else Continue(sys.db, e.now, pc, s);
    System(if e.reply.Lost? then sys.db else r.0, sys.pcs[e.p := if e.reply.Fine? then r.1 else AfterError(pc)])
  }

  // -- refinement

  /** How many commands a process has left at most. */
  function Remaining(pc: Pc): nat {
    match pc
    case Idle => 0
    case Clearing(_) => 1
    case Matched(_) => 2
    case Indexing(_, _) => 2
    case DroppingCaptcha(_) => 2
    case DroppingIndex(_, _) => 3
    case GivingUp(_) => 4
    case Counting(_, _) => 5
    case Mismatched(_) => 6
  }

  /** The store once a process has finished its call with nobody in between. */
  function Finished(db: Db, now: nat, pc: Pc, indexOk: bool, s: Settings): Db
    decreases Remaining(pc)
  {
    if pc.Idle? then db
    else if pc.Indexing? && !indexOk then Finished(db, now, AfterError(pc), indexOk, s)
    else
      var r := Continue(db, now, pc, s);
      Finished(r.0, now, r.1, indexOk, s)
  }

  lemma FinishedStep(db: Db, now: nat, pc: Pc, indexOk: bool, s: Settings)
    requires !pc.Idle? && !pc.Indexing?
    ensures Finished(db, now, pc, indexOk, s) == Finished(Continue(db, now, pc, s).0, now, Continue(db, now, pc, s).1, indexOk, s)
  {
  }

  /** Refinement: command by command, an undisturbed call does what the service methods do at once. */
  lemma UndisturbedCallIsAtomic(db: Db, now: nat, start: Start, indexOk: bool, s: Settings)
    ensures var r := Begin(db, now, start, s);
            Finished(r.0, now, r.1, indexOk, s) ==
              if start.StartGenerate? then AfterSet(db, now, s.account, start.openid, start.code, s.ttl, indexOk)
              else AfterVerify(db, now, s.account, start.openid, start.given, s.maxFailed, true)
  {
    var r := Begin(db, now, start, s);
    match r.1
    case Mismatched(openid) =>
      MissIsAtomic(db, now, openid, indexOk, s);
    case Indexing(openid, code) =>
      if indexOk {
        ClearingEnds(Continue(r.0, now, r.1, s).0, now, openid, indexOk, s);
      } else {
        ClearingEnds(r.0, now, openid, indexOk, s);
      }
    case Matched(openid) =>
      ClearingEnds(Continue(r.0, now, r.1, s).0, now, openid, indexOk, s);
    case _ =>
  }

  lemma MissIsAtomic(db: Db, now: nat, openid: string, indexOk: bool, s: Settings)
    ensures var key := CaptchaKey(s.account, openid);
            var n := CountAfterIncr(db, now, AttemptsKey(key));
            var counted := AfterCount(db, now, AttemptsKey(key), true);
            Finished(db, now, Mismatched(openid), indexOk, s) ==
              if n.Some? && n.value >= s.maxFailed then AfterDelete(counted, now, s.account, key) else counted
  {
    var key := CaptchaKey(s.account, openid);
    var pc := Mismatched(openid);
    FinishedStep(db, now, pc, indexOk, s);
    var raised := Continue(db, now, pc, s);
    if raised.1.Counting? {
      FinishedStep(raised.0, now, raised.1, indexOk, s);
      var counted := Continue(raised.0, now, raised.1, s);
      if counted.1.GivingUp? {
        GivingUpDeletes(counted.0, now, openid, indexOk, s);
      }
    }
  }

  lemma GivingUpDeletes(db: Db, now: nat, openid: string, indexOk: bool, s: Settings)
    ensures Finished(db, now, GivingUp(openid), indexOk, s) == AfterDelete(db, now, s.account, CaptchaKey(s.account, openid))
  {
    FinishedStep(db, now, GivingUp(openid), indexOk, s);
    var pc := Continue(db, now, GivingUp(openid), s).1;
    if pc.DroppingIndex? {
      FinishedStep(db, now, pc, indexOk, s);
      DropEnds(Continue(db, now, pc, s).0, now, openid, indexOk, s);
    } else {
      DropEnds(db, now, openid, indexOk, s);
    }
  }

  lemma ClearingEnds(db: Db, now: nat, openid: string, indexOk: bool, s: Settings)
    ensures Finished(db, now, Clearing(openid), indexOk, s) == db - {AttemptsKey(CaptchaKey(s.account, openid))}
  {
  }

  lemma DropEnds(db: Db, now: nat, openid: string, indexOk: bool, s: Settings)
    ensures var key := CaptchaKey(s.account, openid);
            Finished(db, now, DroppingCaptcha(openid), indexOk, s) == db - {key} - {AttemptsKey(key)}
  {
    ClearingEnds(db - {CaptchaKey(s.account, openid)}, now, openid, indexOk, s);
  }

  // -- conservation

  /** The event stores a new captcha for `openid`. */
  predicate Generates(sys: System, e: Event, s: Settings, openid: string) {
    && PcOf(sys, e.p).Idle? && e.start.StartGenerate? && e.start.openid == openid
    && Get(sys.db, e.now, CaptchaKey(s.account, openid)).None?
    && !e.reply.Lost?
  }

  /** The event is the answered consume that lets a verification of `openid` succeed. */
  predicate Verifies(sys: System, e: Event, s: Settings, openid: string) {
    && PcOf(sys, e.p) == Matched(openid)
    && Peek(sys.db, e.now, CaptchaKey(s.account, openid)).Some?
    && e.reply.Fine?
  }

  function CountGenerated(sys: System, run: seq<Event>, s: Settings, openid: string): nat
    decreases |run|
  {
    if run == [] then 0
    else (if Generates(sys, run[0], s, openid) then 1 else 0) + CountGenerated(Act(sys, run[0], s), run[1..], s, openid)
  }

  function CountVerified(sys: System, run: seq<Event>, s: Settings, openid: string): nat
    decreases |run|
  {
    if run == [] then 0
    else (if Verifies(sys, run[0], s, openid) then 1 else 0) + CountVerified(Act(sys, run[0], s), run[1..], s, openid)
  }

  function RunFrom(sys: System, run: seq<Event>, s: Settings): System
    decreases |run|
  {
    if run == [] then sys else RunFrom(Act(sys, run[0], s), run[1..], s)
  }

  /** 1 while a captcha of `openid` is stored. */
  function Held(db: Db, account: string, openid: string): nat {
    var key := CaptchaKey(account, openid);
    if key in db && db[key].value.Text? then 1 else 0
  }

  lemma BeginConserves(db: Db, now: nat, start: Start, s: Settings, openid: string)
    ensures var stores := start.StartGenerate? && start.openid == openid && Get(db, now, CaptchaKey(s.account, openid)).None?;
            Held(Begin(db, now, start, s).0, s.account, openid) <= Held(db, s.account, openid) + (if stores then 1 else 0)
  {
    if start.StartGenerate? && CaptchaKey(s.account, start.openid) == CaptchaKey(s.account, openid) {
      CaptchaKeysDiffer(s.account, start.openid, openid);
    }
  }

  lemma ContinueConserves(db: Db, now: nat, pc: Pc, s: Settings, openid: string)
    requires !pc.Idle?
    ensures var uses := pc == Matched(openid) && Peek(db, now, CaptchaKey(s.account, openid)).Some?;
            Held(Continue(db, now, pc, s).0, s.account, openid) + (if uses then 1 else 0) <= Held(db, s.account, openid)
  {
    if pc.Indexing? {
      CaptchaKeyIsNoIndexKey(s.account, openid, pc.code);
    }
  }

  /**
   Conservation, in every interleaving of any number of processes and with any commands failing
   before or after their effect: verifications of an openid that answered Ok, and the captcha it may still hold, never outnumber the captchas generated for it.
   */
  lemma {:induction false} VerifiedNeverExceedGenerated(sys: System, run: seq<Event>, s: Settings, openid: string)
    ensures CountVerified(sys, run, s, openid) + Held(RunFrom(sys, run, s).db, s.account, openid)
         <= CountGenerated(sys, run, s, openid) + Held(sys.db, s.account, openid)
    decreases |run|
  {
    if run != [] {
      var e := run[0];
      var pc := PcOf(sys, e.p);
      if pc.Idle? {
        BeginConserves(sys.db, e.now, e.start, s, openid);
      } else {
        ContinueConserves(sys.db, e.now, pc, s, openid);
      }
      VerifiedNeverExceedGenerated(Act(sys, e, s), run[1..], s, openid);
    }
  }
}
