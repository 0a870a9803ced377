/** The router's token-review cache: entries expire when read and are evicted in the background. */
module TokenCache {
  import opened Wrappers

  type Token = string
  type Key = string
  type User = string

  datatype Entry = Entry(user: User, storedAt: int)

  /** What the API server says about a token. */
  datatype Review = Granted(user: User) | Denied | Failed

  function Hit(entries: map<Key, Entry>, key: Key, now: int, ttl: int): Option<User> {
    if key in entries && now - entries[key].storedAt < ttl then Some(entries[key].user) else None
  }

  function Evicted(entries: map<Key, Entry>, now: int, ttl: int): map<Key, Entry> {
    map key | key in entries && now - entries[key].storedAt < ttl :: entries[key]
  }

  /** The token reviewer itself; the clock and the review service are arguments. */
  class TokenReviewer {
    const ttl: int
    const devToken: Token
    const hash: Token -> Key
    var entries: map<Key, Entry>

    constructor (ttl: int, devToken: Token, hash: Token -> Key)
      ensures this.ttl == ttl && this.devToken == devToken && this.hash == hash && entries == map[]
    {
      this.ttl := ttl;
      this.devToken := devToken;
      this.hash := hash;
      entries := map[];
    }

    /** One authenticate call: it looks up at `now` and, after a granted review, stores at `later`. */
    method Authenticate(token: Token, review: Review, now: int, later: int) returns (user: Option<User>)
      modifies this
      ensures var key := hash(token);
              if devToken != "" && token == devToken then user == Some("dev-token") && entries == old(entries)
              else if key in old(entries) && now - old(entries)[key].storedAt < ttl
              then user == Some(old(entries)[key].user) && entries == old(entries)
              else if review.Granted?
              then user == Some(review.user) && entries == old(entries)[key := Entry(review.user, later)]
              else user == None && entries == old(entries)
    {
      if devToken != "" && token == devToken {
        return Some("dev-token");
      }
      var key := hash(token);
      if key in entries && now - entries[key].storedAt < ttl {
        return Some(entries[key].user);
      }
      if !review.Granted? {
        return None;
      }
      entries := entries[key := Entry(review.user, later)];
      return Some(review.user);
    }

    /** One round of the eviction loop. */
    method Evict(now: int)
      modifies this
      ensures forall key :: key in entries <==> key in old(entries) && now - old(entries)[key].storedAt < ttl
      ensures forall key | key in entries :: entries[key] == old(entries)[key]
      ensures entries == Evicted(old(entries), now, ttl)
    {
      var keys := entries.Keys;
      while keys != {}
        invariant keys <= old(entries.Keys)
        invariant entries == map key | key in old(entries)
                                       && (key in keys || now - old(entries)[key].storedAt < ttl) :: old(entries)[key]
        decreases keys
      {
        var key :| key in keys;
        if now - entries[key].storedAt >= ttl {
          entries := entries - {key};
        }
        keys := keys - {key};
      }
    }
  }

  // ----- Concurrent calls and the evictor -----

  /** The cache's settings. */
  datatype Config = Config(ttl: int, devToken: Token, hash: Token -> Key)

  /** A call that missed the cache, and one whose review was granted. */
  datatype Pending = Reviewing(token: Token) | Storing(token: Token, user: User)

  /** The outcome of a call, when it was decided, and whether the cache decided it. */
  datatype Answer = Answer(token: Token, user: Option<User>, cached: bool, at: int)

  /** A granted review that was stored. */
  datatype Stored = Stored(token: Token, user: User, at: int)

  datatype State = State(entries: map<Key, Entry>, now: int, pending: map<nat, Pending>, answers: map<nat, Answer>,
                         stored: set<Stored>)

  const START := State(map[], 0, map[], map[], {})

  datatype Action =
    | Tick(d: nat)
    | Lookup(call: nat, token: Token)
    | Reviewed(call: nat, review: Review)
    | Store(call: nat)
    | EvictStep

  function Finish(st: State, call: nat, a: Answer): State {
    st.(answers := st.answers[call := a], pending := map c | c in st.pending && c != call :: st.pending[c])
  }

  function LookupStep(k: Config, st: State, call: nat, token: Token): State {
    if call in st.pending || call in st.answers then st
    else if k.devToken != "" && token == k.devToken then Finish(st, call, Answer(token, Some("dev-token"), false, st.now))
    else match Hit(st.entries, k.hash(token), st.now, k.ttl)
      case Some(user) => Finish(st, call, Answer(token, Some(user), true, st.now))
      case None => st.(pending := st.pending[call := Reviewing(token)])
  }

  function ReviewStep(st: State, call: nat, review: Review): State {
    if call !in st.pending || !st.pending[call].Reviewing? then st
    else if review.Granted? then st.(pending := st.pending[call := Storing(st.pending[call].token, review.user)])
    else Finish(st, call, Answer(st.pending[call].token, None, false, st.now))
  }

  function StoreStep(k: Config, st: State, call: nat): State {
    if call !in st.pending || !st.pending[call].Storing? then st
    else
      var Storing(token, user) := st.pending[call];
      Finish(st, call, Answer(token, Some(user), false, st.now))
      .(entries := st.entries[k.hash(token) := Entry(user, st.now)], stored := st.stored + {Stored(token, user, st.now)})
  }

  function Next(k: Config, st: State, a: Action): State {
    match a
    case Tick(d) => st.(now := st.now + d)
    case Lookup(call, token) => LookupStep(k, st, call, token)
    case Reviewed(call, review) => ReviewStep(st, call, review)
    case Store(call) => StoreStep(k, st, call)
    case EvictStep => st.(entries := Evicted(st.entries, st.now, k.ttl))
  }

  function Exec(k: Config, run: seq<Action>): State {
    if run == [] then START else Next(k, Exec(k, run[..|run| - 1]), run[|run| - 1])
  }

  /** The run without its eviction steps. */
  function WithoutEviction(run: seq<Action>): seq<Action> {
    if run == [] then []
    else
      var n := |run| - 1;
      WithoutEviction(run[..n]) + if run[n].EvictStep? then [] else [run[n]]
  }

  // ----- Eviction is invisible -----

  /** The two states differ at most in entries that have expired. */
  ghost predicate Same(k: Config, st: State, full: State) {
    && st == full.(entries := st.entries)
    && (forall key | key in st.entries :: key in full.entries && st.entries[key] == full.entries[key])
    && (forall key | key in full.entries && key !in st.entries :: full.now - full.entries[key].storedAt >= k.ttl)
  }

  lemma SameAfterStep(k: Config, st: State, full: State, a: Action)
    requires Same(k, st, full) && !a.EvictStep?
    ensures Same(k, Next(k, st, a), Next(k, full, a))
  {
  }

  lemma SameAfterEviction(k: Config, st: State, full: State)
    requires Same(k, st, full)
    ensures Same(k, Next(k, st, EvictStep), full)
  {
  }

  /**
    * Deleting all eviction steps from any run changes no answer: calls are looked up, reviewed and stored in
    * any interleaving, and time never goes back.
    */
  lemma {:induction false} EvictionIsInvisible(k: Config, run: seq<Action>)
    ensures Same(k, Exec(k, run), Exec(k, WithoutEviction(run)))
    ensures Exec(k, run).answers == Exec(k, WithoutEviction(run)).answers
  {
    if run != [] {
      var n := |run| - 1;
      var kept := WithoutEviction(run[..n]);
      EvictionIsInvisible(k, run[..n]);
      if run[n].EvictStep? {
        SameAfterEviction(k, Exec(k, run[..n]), Exec(k, kept));
        assert WithoutEviction(run) == kept;
      } else {
        SameAfterStep(k, Exec(k, run[..n]), Exec(k, kept), run[n]);
        assert (kept + [run[n]])[..|kept|] == kept;
      }
    }
  }

  // ----- A cached success was granted to that token -----

  /** The answer repeats a review that was granted for this very token less than a TTL ago. */
  ghost predicate Justified(k: Config, st: State, a: Answer) {
    a.cached ==>
      exists s | s in st.stored :: s.token == a.token && a.user == Some(s.user) && s.at <= a.at && a.at - s.at < k.ttl
  }

  /** Distinct tokens that reach the cache have distinct keys. */
  ghost predicate Injective(k: Config) {
    forall a, b | Reaches(k, a) && Reaches(k, b) && k.hash(a) == k.hash(b) :: a == b
  }

  /**
    * No two tokens share a key, or nothing is ever cached. The second half covers a TTL that the program cannot run
    * with: its eviction ticker does not accept one.
    */
  ghost predicate KeysApart(k: Config) {
    k.ttl <= 0 || Injective(k)
  }

  predicate Reaches(k: Config, token: Token) {
    k.devToken == "" || token != k.devToken
  }

  ghost predicate Backed(k: Config, st: State, key: Key, e: Entry) {
    exists s | s in st.stored ::
      k.hash(s.token) == key && Reaches(k, s.token) && s.user == e.user && s.at == e.storedAt <= st.now
  }

  ghost predicate CacheInv(k: Config, st: State) {
    && (forall key | key in st.entries :: Backed(k, st, key, st.entries[key]))
    && (forall call | call in st.pending :: Reaches(k, st.pending[call].token))
    && (forall call | call in st.answers :: Justified(k, st, st.answers[call]))
  }

  lemma BackedStays(k: Config, st: State, st': State, key: Key, e: Entry)
    requires Backed(k, st, key, e) && st.stored <= st'.stored && st.now <= st'.now
    ensures Backed(k, st', key, e)
  {
  }

  lemma JustifiedStays(k: Config, st: State, st': State, a: Answer)
    requires Justified(k, st, a) && st.stored <= st'.stored
    ensures Justified(k, st', a)
  {
  }

  lemma HitIsJustified(k: Config, st: State, token: Token, user: User)
    requires CacheInv(k, st) && KeysApart(k) && Reaches(k, token)
    requires Hit(st.entries, k.hash(token), st.now, k.ttl) == Some(user)
    ensures Justified(k, st, Answer(token, Some(user), true, st.now))
  {
    var e := st.entries[k.hash(token)];
    assert Backed(k, st, k.hash(token), e);
    var s :| s in st.stored && k.hash(s.token) == k.hash(token) && Reaches(k, s.token)
             && s.user == e.user && s.at == e.storedAt <= st.now;
    assert s.token == token;
  }

  lemma StepKeepsCacheInv(k: Config, st: State, a: Action)
    requires CacheInv(k, st) && KeysApart(k)
    ensures CacheInv(k, Next(k, st, a))
  {
    hide Backed, Justified, KeysApart;
    var st' := Next(k, st, a);
    if a.Lookup? && Reaches(k, a.token) {
      var hit := Hit(st.entries, k.hash(a.token), st.now, k.ttl);
      if hit.Some? { HitIsJustified(k, st, a.token, hit.value); }
    }
    forall key | key in st'.entries ensures Backed(k, st', key, st'.entries[key]) {
      if key in st.entries && st.entries[key] == st'.entries[key] {
        BackedStays(k, st, st', key, st.entries[key]);
      } else {
        StoredIsBacked(k, st, a.call);
      }
    }
    forall call | call in st'.answers ensures Justified(k, st', st'.answers[call]) {
      if call in st.answers && st.answers[call] == st'.answers[call] {
        JustifiedStays(k, st, st', st.answers[call]);
      } else if !st'.answers[call].cached {
        UncachedIsJustified(k, st', st'.answers[call]);
      } else {
        JustifiedStays(k, st, st', st'.answers[call]);
      }
    }
  }

  lemma UncachedIsJustified(k: Config, st: State, a: Answer)
    requires !a.cached
    ensures Justified(k, st, a)
  {
  }

  lemma StoredIsBacked(k: Config, st: State, call: nat)
    requires call in st.pending && st.pending[call].Storing? && Reaches(k, st.pending[call].token)
    ensures var st', key := StoreStep(k, st, call), k.hash(st.pending[call].token); Backed(k, st', key, st'.entries[key])
  {
    assert Stored(st.pending[call].token, st.pending[call].user, st.now) in StoreStep(k, st, call).stored;
  }

  lemma {:induction false} CachedAnswersAreJustified(k: Config, run: seq<Action>)
    requires KeysApart(k)
    ensures CacheInv(k, Exec(k, run))
  {
    if run != [] {
      hide CacheInv, Next, KeysApart;
      CachedAnswersAreJustified(k, run[..|run| - 1]);
      StepKeepsCacheInv(k, Exec(k, run[..|run| - 1]), run[|run| - 1]);
    }
  }

  // ----- A fresh review is answered from the cache -----

  /** Every review stored less than a TTL ago has an entry at least as recent under its key. */
  ghost predicate Remembers(k: Config, st: State) {
    forall s | s in st.stored ::
      && s.at <= st.now
      && (st.now - s.at < k.ttl ==>
            k.hash(s.token) in st.entries && s.at <= st.entries[k.hash(s.token)].storedAt <= st.now)
  }

  lemma StepRemembers(k: Config, st: State, a: Action)
    requires Remembers(k, st)
    ensures Remembers(k, Next(k, st, a))
  {
  }

  lemma {:induction false} RunRemembers(k: Config, run: seq<Action>)
    ensures Remembers(k, Exec(k, run))
  {
    if run != [] {
      hide Remembers, Next;
      RunRemembers(k, run[..|run| - 1]);
      StepRemembers(k, Exec(k, run[..|run| - 1]), run[|run| - 1]);
    } else {
      assert Remembers(k, START);
    }
  }

  /** In every run: a token whose granted review was stored less than a TTL ago is answered at once, without a review. */
  lemma FreshReviewsAnswer(k: Config, run: seq<Action>, s: Stored, call: nat)
    requires var st := Exec(k, run);
             && s in st.stored && st.now - s.at < k.ttl && Reaches(k, s.token)
             && call !in st.pending && call !in st.answers
    ensures var st' := Next(k, Exec(k, run), Lookup(call, s.token));
            call in st'.answers && st'.answers[call].user.Some? && st'.answers[call].cached
  {
    hide Exec;
    RunRemembers(k, run);
  }

  ghost predicate AlwaysJustified(k: Config) {
    forall run, call | call in Exec(k, run).answers :: Justified(k, Exec(k, run), Exec(k, run).answers[call])
  }

  /** Two tokens with one key: the second is taken for the user of the first. */
  lemma Collision(k: Config, a: Token, b: Token) returns (run: seq<Action>)
    requires k.ttl > 0 && Reaches(k, a) && Reaches(k, b) && a != b && k.hash(a) == k.hash(b)
    ensures 1 in Exec(k, run).answers && !Justified(k, Exec(k, run), Exec(k, run).answers[1])
  {
    run := [Lookup(0, a)];
    assert run[..0] == [];
    var st := Exec(k, run);
    OneMoreStep(k, run, Reviewed(0, Granted("u")));
    run := run + [Reviewed(0, Granted("u"))];
    OneMoreStep(k, run, Store(0));
    run := run + [Store(0)];
    assert Exec(k, run).stored == {Stored(a, "u", 0)};
    OneMoreStep(k, run, Lookup(1, b));
    run := run + [Lookup(1, b)];
    assert Exec(k, run).answers[1] == Answer(b, Some("u"), true, 0);
  }

  lemma OneMoreStep(k: Config, run: seq<Action>, a: Action)
    ensures Exec(k, run + [a]) == Next(k, Exec(k, run), a)
  {
    assert (run + [a])[..|run|] == run;
  }

  /**
    * Every cached success, in every run, was stored for that token by a granted review less than a TTL ago:
    * this holds exactly if the token hash has no collisions or the TTL is not positive.
    */
  lemma CacheIsSoundExactly(k: Config)
    ensures AlwaysJustified(k) <==> KeysApart(k)
  {
    if KeysApart(k) {
      forall run, call | call in Exec(k, run).answers ensures Justified(k, Exec(k, run), Exec(k, run).answers[call]) {
        CachedAnswersAreJustified(k, run);
      }
    } else {
      var a, b :| Reaches(k, a) && Reaches(k, b) && k.hash(a) == k.hash(b) && a != b;
      var run := Collision(k, a, b);
    }
  }
}
