/** Conditional requests between the client's stored data and the API: the server tags fresh
    answers with a hash of their value, the client sends the tag it stored and takes
    "304 Not Modified" to mean that it is up to date. */
module ClientSync {
  import opened Wrappers

  type Value = string
  type Hash = Value -> string

  // ---- The server ----

  /** What the handler produces, before conditional requests are looked at. */
  datatype Answer = Data(value: Value, stale: bool) | Failed(code: nat)

  datatype Response =
    | Ok(value: Value, etag: Option<string>, stale: bool)
    | NotModified
    | Error(code: nat)

  ghost predicate Injective(hash: Hash) {
    forall a, b :: hash(a) == hash(b) ==> a == b
  }

  function Tag(hash: Hash, value: Value): string {
    "W/\"" + hash(value) + "\""
  }

  function StripWeak(tag: string): string {
    if "W/" <= tag then tag[2..] else tag
  }

  lemma WeakPrefixIsIgnored(tag: string)
    ensures StripWeak("W/" + tag) == tag
    ensures (forall t :: tag != "W/" + t) ==> StripWeak(tag) == tag
  {
    if "W/" <= tag {
      assert tag == "W/" + tag[2..];
    }
  }

  predicate WeakEtagsMatch(a: string, b: string) {
    StripWeak(a) == StripWeak(b)
  }

  /** Stale answers carry no tag. A fresh one is withheld if the client already has its tag. */
  function Respond(hash: Hash, ifNoneMatch: Option<string>, answer: Answer): (r: Response)
    ensures r.Ok? ==> (r.etag.None? <==> r.stale) && (r.etag.Some? ==> r.etag.value == Tag(hash, r.value))
    ensures r.Ok? ==> answer == Data(r.value, r.stale)
    ensures r.NotModified? ==> ifNoneMatch.Some? && answer.Data? && !answer.stale
  {
    match answer
    case Failed(code) => Error(code)
    case Data(value, stale) =>
      var etag := if stale then None else Some(Tag(hash, value));
      if ifNoneMatch.Some? && etag.Some? && WeakEtagsMatch(ifNoneMatch.value, etag.value) then NotModified
      else Ok(value, etag, stale)
  }

  lemma TagIsStripped(hash: Hash, value: Value)
    ensures StripWeak(Tag(hash, value)) == "\"" + hash(value) + "\"" == StripWeak("\"" + hash(value) + "\"")
  {
    assert Tag(hash, value) == "W/" + ("\"" + hash(value) + "\"");
    assert ("\"" + hash(value) + "\"")[0] == '\"';
  }

  lemma SameBetween(before: string, a: string, b: string, after: string)
    ensures before + a + after == before + b + after <==> a == b
  {
    if before + a + after == before + b + after {
      assert |a| == |b|;
      assert a == (before + a + after)[|before|..][..|a|] && b == (before + b + after)[|before|..][..|b|];
    }
  }

  /** Weak comparison (section 8.8.3.2 of RFC 9110) ignores the weakness prefix of either side, so a
      strong form of the same tag matches too; two generated tags match only for equal values. */
  lemma TagsMatchIffValuesEqual(hash: Hash, a: Value, b: Value)
    requires Injective(hash)
    ensures WeakEtagsMatch(Tag(hash, a), Tag(hash, b)) <==> a == b
    ensures WeakEtagsMatch("\"" + hash(a) + "\"", Tag(hash, b)) <==> a == b
  {
    TagIsStripped(hash, a);
    TagIsStripped(hash, b);
    SameBetween("\"", hash(a), hash(b), "\"");
  }

  // ---- The client ----

  /** `readable` is false if the value was stored by a version of the app whose format
      this version can no longer decode. */
  datatype StoredValue = StoredValue(instance: string, etag: Option<string>, value: Value, readable: bool)

  datatype FetchResult = Loaded(value: Value) | Pending | Broken(code: nat)

  const BASE_RETRY_DELAY_MS := 1500
  const MAX_RETRIES := 5

  function Pow2(n: nat): nat {
    if n == 0 then 1 else 2 * Pow2(n - 1)
  }

  /** What a client keeps and shows. */
  datatype Client = Client(instance: string, stored: Option<StoredValue>, result: FetchResult)

  function TagOf(stored: Option<StoredValue>): Option<string> {
    if stored.Some? then stored.value.etag else None
  }

  /** What a reload makes of it, the server having `answer` for it and, should that be a 404, `alias` for the
      instance. */
  function Reloaded(hash: Hash, c: Client, answer: Answer, alias: Option<string>): Client {
    match Respond(hash, TagOf(c.stored), answer)
    case Ok(value, etag, _) =>
      c.(stored := Some(StoredValue(c.instance, etag, value, true)), result := Loaded(value))
    case NotModified => c
    case Error(code) =>
      if code == 404 && alias.Some? then
        c.(stored := if c.stored.None? then None else Some(c.stored.value.(instance := alias.value)))
      else if code == 404 then c.(result := Broken(404))
      else c.(result := if c.result.Pending? then Broken(code) else c.result)
  }

  /** What repeated reloads make of it while the server has data to give. */
  function ReloadedAll(hash: Hash, c: Client, answers: seq<Answer>): Client
    decreases |answers|
  {
    if answers == [] then c else ReloadedAll(hash, Reloaded(hash, c, answers[0], None), answers[1..])
  }

  /** A 404 that no alias explains. */
  predicate IsGone(answer: Answer, alias: Option<string>) {
    answer == Failed(404) && alias.None?
  }

  /** What is on display goes only if the environment is gone; a fetch that fails never loses stored data, and its
      error is shown only in place of nothing. */
  lemma FailuresKeepData(hash: Hash, c: Client, answer: Answer, alias: Option<string>)
    ensures var after := Reloaded(hash, c, answer, alias);
            && (c.result.Loaded? ==> (after.result.Loaded? <==> !IsGone(answer, alias)))
            && (answer.Failed? ==>
                  && (after.result == c.result || after.result == Broken(answer.code))
                  && (after.result != c.result ==> c.result.Pending? || IsGone(answer, alias))
                  && (c.result.Pending? && after.result.Pending? ==> answer.code == 404 && alias.Some?)
                  && (c.stored.None? <==> after.stored.None?)
                  && (c.stored.Some? ==>
                        after.stored.value == c.stored.value.(instance := after.stored.value.instance)))
  {
    assert answer.Failed? ==> Respond(hash, TagOf(c.stored), answer) == Error(answer.code);
  }

  /** So while offline a client keeps what it shows and stores. */
  lemma {:induction false} OfflineChangesNothing(hash: Hash, c: Client, answers: seq<Answer>)
    requires c.result.Loaded? && forall a | a in answers :: a.Failed? && a.code != 404
    ensures ReloadedAll(hash, c, answers) == c
    decreases |answers|
  {
    if answers == [] {
    } else {
      assert answers[0] in answers;
      assert Reloaded(hash, c, answers[0], None) == c;
      OfflineChangesNothing(hash, c, answers[1..]);
    }
  }

  /** Unreadable data is stored under the very tag of a value. */
  predicate IsStuckOn(hash: Hash, c: Client, value: Value) {
    && c.stored.Some? && c.stored.value.instance == c.instance && !c.stored.value.readable
    && c.stored.value.etag == Some(Tag(hash, value))
  }

  lemma {:induction false} DataStaysShown(hash: Hash, c: Client, answers: seq<Answer>)
    requires c.result.Loaded? && forall a | a in answers :: a.Data?
    ensures ReloadedAll(hash, c, answers).result.Loaded?
    decreases |answers|
  {
    if answers == [] {
    } else {
      assert answers[0] in answers;
      DataStaysShown(hash, Reloaded(hash, c, answers[0], None), answers[1..]);
    }
  }

  predicate AllAre(answers: seq<Answer>, answer: Answer) {
    forall i | 0 <= i < |answers| :: answers[i] == answer
  }

  lemma AllAreFromFirst(answers: seq<Answer>, answer: Answer)
    requires answers != []
    ensures AllAre(answers, answer) <==> answers[0] == answer && AllAre(answers[1..], answer)
  {
    if AllAre(answers, answer) {
      assert forall i | 0 <= i < |answers| - 1 :: answers[1..][i] == answers[i + 1];
    } else {
      var i :| 0 <= i < |answers| && answers[i] != answer;
      assert i > 0 ==> answers[1..][i - 1] != answer;
    }
  }

  lemma StuckReload(hash: Hash, c: Client, value: Value, a: Answer)
    requires Injective(hash) && IsStuckOn(hash, c, value) && a.Data?
    ensures a == Data(value, false) ==> Reloaded(hash, c, a, None) == c
    ensures a != Data(value, false) ==> Reloaded(hash, c, a, None).result.Loaded?
  {
    TagsMatchIffValuesEqual(hash, value, a.value);
  }

  /** The source means to clear data it cannot read and fetch it again, but keeps the tag: a client with nothing to
      show that keeps unreadable data of a value has nothing to show after any number of reloads, exactly if the
      server gave that value, and no stale one, each time. */
  lemma {:induction false} NeverShown(hash: Hash, c: Client, value: Value, answers: seq<Answer>)
    requires Injective(hash) && IsStuckOn(hash, c, value) && !c.result.Loaded?
    requires forall a | a in answers :: a.Data?
    ensures !ReloadedAll(hash, c, answers).result.Loaded? <==> AllAre(answers, Data(value, false))
    decreases |answers|
  {
    if answers == [] {
    } else {
      var a, rest := answers[0], answers[1..];
      assert a in answers;
      AllAreFromFirst(answers, Data(value, false));
      StuckReload(hash, c, value, a);
      if a == Data(value, false) {
        NeverShown(hash, c, value, rest);
      } else {
        DataStaysShown(hash, Reloaded(hash, c, a, None), rest);
      }
    }
  }

  /** The delays before the retries there are, in milliseconds. */
  lemma RetryDelays()
    ensures seq(MAX_RETRIES, (i: nat) => BASE_RETRY_DELAY_MS * Pow2(i)) == [1500, 3000, 6000, 12000, 24000]
  {
    assert Pow2(2) == 4 && Pow2(4) == 4 * Pow2(2);
  }

  /** The retry after `count` others is scheduled with its delay, unless there were enough. */
  predicate IsScheduled(count: nat, count': nat, delay: Option<nat>) {
    if count < MAX_RETRIES then count' == count + 1 && delay == Some(BASE_RETRY_DELAY_MS * Pow2(count))
    else count' == count && delay == None
  }

  class RemoteData {
    const hash: Hash
    var instance: string
    var stored: Option<StoredValue>   // in local storage
    var result: FetchResult           // on display
    ghost var shownFor: string        // the instance whose data is on display, if any is
    var retryCount: nat
    var retryDelay: Option<nat>       // of the pending retry timer

    /** The stored tag is the tag of the stored value, and what is on display, once there is
        something, is what is stored. */
    ghost predicate Valid()
      reads this
    {
      && Injective(hash)
      && (stored.Some? && stored.value.etag.Some? ==> stored.value.etag.value == Tag(hash, stored.value.value))
      && (stored.Some? && result.Loaded? ==> stored.value.readable && stored.value.value == result.value)
      && retryCount <= MAX_RETRIES
    }

    constructor (hash: Hash, instance: string, stored: Option<StoredValue>)
      requires Injective(hash)
      requires stored.Some? && stored.value.etag.Some? ==> stored.value.etag.value == Tag(hash, stored.value.value)
      ensures Valid() && this.hash == hash && this.instance == instance && this.stored == stored
      ensures result == Pending && retryCount == 0 && retryDelay == None
    {
      this.hash, this.instance, this.stored := hash, instance, stored;
      result, retryCount, retryDelay := Pending, 0, None;
    }

    function Kept(): Client
      reads this
    {
      Client(instance, stored, result)
    }

    /** The data of another instance is on display. */
    ghost predicate ShowsAnother()
      reads this
    {
      result.Loaded? && shownFor != instance
    }

    /** Readable data of this instance is stored. */
    predicate HasOwn()
      reads this
    {
      stored.Some? && stored.value.instance == instance && stored.value.readable
    }

    method SetResultIfModified(value: Value)
      modifies this`result, this`shownFor
      ensures result == Loaded(value) && shownFor == instance
    {
      shownFor := instance;
      if !result.Loaded? || result.value != value {
        result := Loaded(value);
      }
    }

    method ScheduleRetry()
      requires retryCount <= MAX_RETRIES
      modifies this`retryCount, this`retryDelay
      ensures old(retryCount) < MAX_RETRIES ==>
                retryCount == old(retryCount) + 1 && retryDelay == Some(BASE_RETRY_DELAY_MS * Pow2(old(retryCount)))
      ensures old(retryCount) == MAX_RETRIES ==> retryCount == MAX_RETRIES && retryDelay == old(retryDelay)
    {
      if retryCount >= MAX_RETRIES {
        return;
      }
      retryDelay := Some(BASE_RETRY_DELAY_MS * Pow2(retryCount));
      retryCount := retryCount + 1;
    }

    /** One reload. After a 200 the server's value is stored and on display. After a 304 it is stored, and it is on
        display exactly if anything was. */
    method Reload(answer: Answer, alias: Option<string>)
      requires Valid()
      modifies this`stored, this`result, this`shownFor, this`retryCount, this`retryDelay
      ensures Valid()
      ensures Kept() == Reloaded(hash, old(Kept()), answer, alias)
      ensures var r := Respond(hash, TagOf(old(stored)), answer);
              match r
              case Ok(_, _, stale) =>
                && shownFor == instance
                && (if stale then IsScheduled(old(retryCount), retryCount, retryDelay)
                    else retryCount == 0 && retryDelay.None?)
              case NotModified =>
                && stored.Some? && stored.value.value == answer.value
                && (result == Loaded(answer.value) <==> old(result).Loaded?)
                && shownFor == old(shownFor) && retryCount == 0 && retryDelay.None?
              case Error(_) =>
                retryDelay.None? && retryCount == old(retryCount) && shownFor == old(shownFor)
    {
      retryDelay := None;
      var response := Respond(hash, TagOf(stored), answer);
      match response {
        case NotModified =>
          TagsMatchIffValuesEqual(hash, stored.value.value, answer.value);
          retryCount := 0;
        case Ok(value, etag, stale) =>
          SetResultIfModified(value);
          stored := Some(StoredValue(instance, etag, value, true));
          if stale {
            ScheduleRetry();
          } else {
            retryCount := 0;
          }
        case Error(code) =>
          if code == 404 {
            if alias.Some? {
              if stored.Some? && stored.value.instance != alias.value {
                stored := Some(stored.value.(instance := alias.value));
              }
            } else {
              result := Broken(code);
            }
          } else if result.Pending? {
            result := Broken(code);
          }
      }
    }

    /** What happens on start and whenever the instance changes. Data stored for another instance is
        dropped; readable data is put on display before it is revalidated; unreadable data is kept. The server's
        value ends up on display unless the client is stuck on unreadable data of that very value. Data of another
        instance stays on display exactly when it was there, this instance's is not stored, and a fetch fails
        other than with a 404 that no alias explains. */
    method Load(shouldFetch: bool, answer: Answer, alias: Option<string>)
      requires Valid()
      modifies this`stored, this`result, this`shownFor, this`retryCount, this`retryDelay
      ensures Valid()
      ensures shouldFetch && answer.Data? ==> (result == Loaded(answer.value) <==> !old(Stuck(answer)))
      ensures shouldFetch && answer.Data? ==> stored.Some? && stored.value.value == answer.value
      ensures !shouldFetch ==>
                stored == if old(stored).None? || old(stored).value.instance != instance then None else old(stored)
      ensures !shouldFetch ==>
                result == if stored.Some? && stored.value.readable then Loaded(stored.value.value) else Pending
      ensures old(Stuck(answer)) && shouldFetch ==> result == old(result) && stored == old(stored)
      ensures ShowsAnother() <==>
                && old(ShowsAnother()) && old(stored.None? || stored.value.instance != instance)
                && shouldFetch && answer.Failed? && (answer.code != 404 || alias.Some?)
      ensures ShowsAnother() ==> result == old(result) && shownFor == old(shownFor)
      ensures if shouldFetch && answer.Data? && answer.stale then retryCount == 1 && retryDelay == Some(1500)
              else retryCount == 0 && retryDelay == None
      ensures old(HasOwn()) && !(shouldFetch && (answer.Data? || IsGone(answer, alias))) ==>
                result == Loaded(old(stored).value.value) && shownFor == instance
      ensures old(HasOwn()) && shouldFetch && answer.Failed? ==>
                stored.Some? && stored.value.value == old(stored).value.value
      ensures shouldFetch && IsGone(answer, alias) ==> result == Broken(404)
      ensures shouldFetch && answer.Failed? && !IsGone(answer, alias) && !old(HasOwn()) ==>
                result == if old(result).Pending? && answer.code != 404 then Broken(answer.code) else old(result)
    {
      retryDelay := None;
      retryCount := 0;
      if stored.None? || stored.value.instance != instance {
        stored := None;
        if shouldFetch {
          Reload(answer, alias);
        } else {
          result := Pending;
        }
        return;
      }
      if !stored.value.readable {
        if shouldFetch {
          Reload(answer, alias);
        } else {
          result := Pending;
        }
        return;
      }
      SetResultIfModified(stored.value.value);
      if shouldFetch {
        Reload(answer, alias);
      }
    }

    /** Unreadable data is stored under the very tag of the server's value. */
    predicate Stuck(answer: Answer)
      reads this
    {
      answer.Data? && !answer.stale && IsStuckOn(hash, Kept(), answer.value)
    }
  }
}
