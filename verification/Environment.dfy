/** The environment a command sees: defaults, overridden by the sandbox's, overridden by the call's. */
module Environment {
  type Env = map<string, string>

  const PATH := "/usr/local/sbin:/usr/local/bin:/usr/sbin:/usr/bin:/sbin:/bin"
  const DEFAULTS: Env := map["PATH" := PATH, "HOME" := "/workspace"]

  /** `order` is an iteration order of the map. */
  ghost predicate OrderOf(order: seq<string>, env: Env) {
    && (forall k :: k in order <==> k in env)
    && (forall i, j | 0 <= i < j < |order| :: order[i] != order[j])
  }

  /** The entries appended for one map. */
  function Entries(order: seq<string>, env: Env): seq<string>
    requires forall k | k in order :: k in env
  {
    if order == [] then []
    else
      var k := order[|order| - 1];
      Entries(order[..|order| - 1], env) + [k + "=" + env[k]]
  }

  /** The environment part of buildNsjailConfig; Go iterates maps in any order. */
  method BuildEnvar(sandboxEnv: Env, sandboxOrder: seq<string>, execEnv: Env, execOrder: seq<string>)
    returns (envar: seq<string>)
    requires OrderOf(sandboxOrder, sandboxEnv) && OrderOf(execOrder, execEnv)
    ensures envar == Envar(sandboxEnv, sandboxOrder, execEnv, execOrder)
  {
    envar := ["PATH=" + PATH, "HOME=/workspace"];
    var first := envar;
    for i := 0 to |sandboxOrder|
      invariant envar == first + Entries(sandboxOrder[..i], sandboxEnv)
    {
      assert sandboxOrder[..i + 1][..i] == sandboxOrder[..i];
      envar := envar + [sandboxOrder[i] + "=" + sandboxEnv[sandboxOrder[i]]];
    }
    assert sandboxOrder[..|sandboxOrder|] == sandboxOrder;
    var second := envar;
    for i := 0 to |execOrder|
      invariant envar == second + Entries(execOrder[..i], execEnv)
    {
      assert execOrder[..i + 1][..i] == execOrder[..i];
      envar := envar + [execOrder[i] + "=" + execEnv[execOrder[i]]];
    }
    assert execOrder[..|execOrder|] == execOrder;
  }

  function Envar(sandboxEnv: Env, sandboxOrder: seq<string>, execEnv: Env, execOrder: seq<string>): seq<string>
    requires (forall k | k in sandboxOrder :: k in sandboxEnv) && forall k | k in execOrder :: k in execEnv
  {
    ["PATH=" + PATH, "HOME=/workspace"] + Entries(sandboxOrder, sandboxEnv) + Entries(execOrder, execEnv)
  }

  // ----- What the entries mean -----

  /** The variable name of an entry: everything before the first '='. */
  function NameOf(entry: string): (name: string)
    ensures '=' !in name && name <= entry
  {
    if entry == "" || entry[0] == '=' then "" else [entry[0]] + NameOf(entry[1..])
  }

  function ValueOf(entry: string): string {
    var n := |NameOf(entry)|;
    if n < |entry| then entry[n + 1..] else ""
  }

  /** Entries are applied in order, so the last one for a name wins. */
  function Effective(envar: seq<string>): Env {
    if envar == [] then map[]
    else
      var entry := envar[|envar| - 1];
      Effective(envar[..|envar| - 1])[NameOf(entry) := ValueOf(entry)]
  }

  lemma {:induction false} EntryMeansPair(k: string, v: string)
    requires '=' !in k
    ensures NameOf(k + "=" + v) == k && ValueOf(k + "=" + v) == v
  {
    if k == "" {
      assert (k + "=" + v)[0] == '=';
      assert (k + "=" + v)[1..] == v;
    } else {
      EntryMeansPair(k[1..], v);
      assert (k + "=" + v)[1..] == k[1..] + "=" + v;
      assert k == [k[0]] + k[1..];
      assert (k + "=" + v)[|k| + 1..] == v;
    }
  }

  predicate NoEquals(env: Env) {
    forall k | k in env :: '=' !in k
  }

  /** The part of the map that the first entries cover. */
  function Covered(order: seq<string>, env: Env): Env
    requires forall k | k in order :: k in env
  {
    map k | k in order :: env[k]
  }

  lemma OneMoreEntry(envar: seq<string>, entry: string)
    ensures Effective(envar + [entry]) == Effective(envar)[NameOf(entry) := ValueOf(entry)]
  {
    assert (envar + [entry])[..|envar|] == envar;
  }

  lemma CoverOneMore(base: Env, order: seq<string>, env: Env)
    requires order != [] && forall k | k in order :: k in env
    ensures var n := |order| - 1;
            base + Covered(order, env) == (base + Covered(order[..n], env))[order[n] := env[order[n]]]
  {
    var n := |order| - 1;
    assert order == order[..n] + [order[n]];
  }

  /** Appending a map's entries overrides by that map. */
  lemma {:induction false} EntriesOverride(envar: seq<string>, order: seq<string>, env: Env)
    requires NoEquals(env) && forall k | k in order :: k in env
    ensures Effective(envar + Entries(order, env)) == Effective(envar) + Covered(order, env)
  {
    if order == [] {
      assert envar + Entries(order, env) == envar;
    } else {
      hide NameOf, ValueOf, Effective, Covered;
      var n := |order| - 1;
      var k := order[n];
      var before, entry := envar + Entries(order[..n], env), k + "=" + env[k];
      EntriesOverride(envar, order[..n], env);
      EntryMeansPair(k, env[k]);
      assert envar + Entries(order, env) == before + [entry];
      OneMoreEntry(before, entry);
      CoverOneMore(Effective(envar), order, env);
    }
  }

  lemma DefaultEntries()
    ensures NameOf("PATH=" + PATH) == "PATH" && ValueOf("PATH=" + PATH) == PATH
    ensures NameOf("HOME=/workspace") == "HOME" && ValueOf("HOME=/workspace") == "/workspace"
  {
    hide NameOf, ValueOf;
    EntryMeansPair("PATH", PATH);
    EntryMeansPair("HOME", "/workspace");
    assert "PATH" + "=" + PATH == "PATH=" + PATH;
    assert "HOME" + "=" + "/workspace" == "HOME=/workspace";
  }

  lemma TwoEntries(first: string, second: string)
    ensures Effective([first, second]) == map[NameOf(first) := ValueOf(first)][NameOf(second) := ValueOf(second)]
  {
    hide NameOf, ValueOf;
    assert [] + [first] == [first] && [first] + [second] == [first, second];
    OneMoreEntry([], first);
    OneMoreEntry([first], second);
  }

  lemma DefaultsAreEffective()
    ensures Effective(["PATH=" + PATH, "HOME=/workspace"]) == DEFAULTS
  {
    hide NameOf, ValueOf, Effective;
    DefaultEntries();
    TwoEntries("PATH=" + PATH, "HOME=/workspace");
  }

  lemma {:induction false} NamesHaveNoEquals(envar: seq<string>, k: string)
    requires k in Effective(envar)
    ensures '=' !in k
  {
    if envar != [] && k != NameOf(envar[|envar| - 1]) {
      NamesHaveNoEquals(envar[..|envar| - 1], k);
    }
  }

  /**
    * Layering, for every iteration order of the two maps: the effective environment is the defaults
    * overridden by the sandbox's map overridden by the call's, exactly if no key contains '='.
    */
  lemma LayeringExactly(sandboxEnv: Env, sandboxOrder: seq<string>, execEnv: Env, execOrder: seq<string>)
    requires OrderOf(sandboxOrder, sandboxEnv) && OrderOf(execOrder, execEnv)
    ensures Effective(Envar(sandboxEnv, sandboxOrder, execEnv, execOrder)) == DEFAULTS + sandboxEnv + execEnv
        <==> NoEquals(sandboxEnv) && NoEquals(execEnv)
  {
    if NoEquals(sandboxEnv) && NoEquals(execEnv) {
      Layering(sandboxEnv, sandboxOrder, execEnv, execOrder);
    } else {
      hide NameOf, Effective, Envar;
      var k :| (k in sandboxEnv || k in execEnv) && '=' in k;
      var envar := Envar(sandboxEnv, sandboxOrder, execEnv, execOrder);
      assert k in DEFAULTS + sandboxEnv + execEnv;
      if k in Effective(envar) {
        NamesHaveNoEquals(envar, k);
      }
    }
  }

  lemma Layering(sandboxEnv: Env, sandboxOrder: seq<string>, execEnv: Env, execOrder: seq<string>)
    requires OrderOf(sandboxOrder, sandboxEnv) && OrderOf(execOrder, execEnv)
    requires NoEquals(sandboxEnv) && NoEquals(execEnv)
    ensures Effective(Envar(sandboxEnv, sandboxOrder, execEnv, execOrder)) == DEFAULTS + sandboxEnv + execEnv
  {
    hide Effective, Entries;
    var defaults := ["PATH=" + PATH, "HOME=/workspace"];
    DefaultsAreEffective();
    EntriesOverride(defaults, sandboxOrder, sandboxEnv);
    EntriesOverride(defaults + Entries(sandboxOrder, sandboxEnv), execOrder, execEnv);
    assert Covered(sandboxOrder, sandboxEnv) == sandboxEnv;
    assert Covered(execOrder, execEnv) == execEnv;
  }

  // ----- Validated environments -----

  /** strings.ToUpper on what can end up in the ASCII range: besides a-z, dotless i and long s. */
  function UpperChar(c: char): char {
    if 'a' <= c <= 'z' then c - 'a' + 'A'
    else if c == '\U{131}' then 'I'
    else if c == '\U{17F}' then 'S'
    else c
  }

  function Upper(s: string): (r: string)
    ensures |r| == |s| && forall i | 0 <= i < |s| :: r[i] == UpperChar(s[i])
  {
    if s == "" then "" else [UpperChar(s[0])] + Upper(s[1..])
  }

  /** unicode.IsSpace. */
  predicate Space(c: char) {
    || c in {' ', '\t', '\n', '\U{B}', '\U{C}', '\r', '\U{85}', '\U{A0}', '\U{1680}', '\U{3000}'}
    || '\U{2000}' <= c <= '\U{200A}'
    || c in {'\U{2028}', '\U{2029}', '\U{202F}', '\U{205F}'}
  }

  function TrimLeft(s: string): string {
    if s != "" && Space(s[0]) then TrimLeft(s[1..]) else s
  }

  function TrimSpace(s: string): string {
    var t := TrimLeft(s);
    TrimRight(t)
  }

  function TrimRight(s: string): string {
    if s != "" && Space(s[|s| - 1]) then TrimRight(s[..|s| - 1]) else s
  }

  /** blockedSandboxEnvKey. */
  predicate Blocked(k: string) {
    var upper := Upper(TrimSpace(k));
    "KUBERNETES_" <= upper || "BOXY_" <= upper
  }

  /** The key checks both validators make; `maxKeys <= 0` means no bound. */
  predicate EnvAccepted(env: Env, maxKeys: int) {
    && (maxKeys > 0 ==> |env| <= maxKeys)
    && forall k | k in env :: '=' !in k && TrimSpace(k) != "" && !Blocked(k)
  }

  // ----- What is kept out, letter by letter -----

  /** `c` is the letter `w` in either case, or one of the two letters beyond ASCII that turn into it. */
  predicate SameLetter(c: char, w: char) {
    || c == w
    || ('A' <= w <= 'Z' && c == w - 'A' + 'a')
    || (w == 'I' && c == '\U{131}') || (w == 'S' && c == '\U{17F}')
  }

  predicate BeginsWith(s: string, word: string) {
    |word| <= |s| && forall i | 0 <= i < |word| :: SameLetter(s[i], word[i])
  }

  /** After any white space in front, `k` begins with `word`, letter for letter in either case. */
  ghost predicate Reserved(k: string, word: string) {
    exists n :: 0 <= n <= |k| && (forall i | 0 <= i < n :: Space(k[i])) && BeginsWith(k[n..], word)
  }

  predicate Word(word: string) {
    word != "" && forall i | 0 <= i < |word| :: 'A' <= word[i] <= 'Z' || word[i] == '_'
  }

  lemma UpperIsSameLetter(c: char, w: char)
    requires 'A' <= w <= 'Z' || w == '_'
    ensures UpperChar(c) == w <==> SameLetter(c, w)
    ensures SameLetter(c, w) ==> !Space(c)
  {
  }

  lemma {:induction false} TrimLeftCuts(s: string)
    ensures exists n :: 0 <= n <= |s| && (forall i | 0 <= i < n :: Space(s[i])) && TrimLeft(s) == s[n..]
                        && (n < |s| ==> !Space(s[n]))
  {
    hide Space;
    if s != "" && Space(s[0]) {
      TrimLeftCuts(s[1..]);
      var m :| 0 <= m <= |s[1..]| && (forall i | 0 <= i < m :: Space(s[1..][i])) && TrimLeft(s[1..]) == s[1..][m..]
               && (m < |s[1..]| ==> !Space(s[1..][m]));
      assert forall i | 1 <= i < m + 1 :: s[i] == s[1..][i - 1];
      assert s[m + 1..] == s[1..][m..];
    } else {
      assert s[0..] == s;
    }
  }

  lemma {:induction false} TrimRightCuts(s: string)
    ensures TrimRight(s) <= s && forall i | |TrimRight(s)| <= i < |s| :: Space(s[i])
  {
    hide Space;
    if s != "" && Space(s[|s| - 1]) {
      TrimRightCuts(s[..|s| - 1]);
    }
  }

  /** Trimming at the end never reaches into the word. */
  lemma TrimRightKeepsWord(s: string, word: string)
    requires Word(word)
    ensures word <= Upper(TrimRight(s)) <==> BeginsWith(s, word)
  {
    hide Space, SameLetter, UpperChar;
    TrimRightCuts(s);
    var t := TrimRight(s);
    forall i | 0 <= i < |word| && i < |s|
      ensures UpperChar(s[i]) == word[i] <==> SameLetter(s[i], word[i])
      ensures SameLetter(s[i], word[i]) ==> !Space(s[i])
    {
      UpperIsSameLetter(s[i], word[i]);
    }
    if word <= Upper(t) {
      forall i | 0 <= i < |word| ensures SameLetter(s[i], word[i]) { assert Upper(t)[i] == word[i]; }
    }
    if BeginsWith(s, word) {
      assert |t| >= |word|;
      assert Upper(t)[..|word|] == word;
    }
  }

  /** A key is reserved for `word` exactly if its trimmed, upper-cased form begins with it. */
  lemma ReservedExactly(k: string, word: string)
    requires Word(word)
    ensures word <= Upper(TrimSpace(k)) <==> Reserved(k, word)
  {
    hide Space, SameLetter;
    TrimLeftCuts(k);
    var n :| 0 <= n <= |k| && (forall i | 0 <= i < n :: Space(k[i])) && TrimLeft(k) == k[n..] && (n < |k| ==> !Space(k[n]));
    TrimRightKeepsWord(k[n..], word);
    if Reserved(k, word) {
      var m :| 0 <= m <= |k| && (forall i | 0 <= i < m :: Space(k[i])) && BeginsWith(k[m..], word);
      assert SameLetter(k[m..][0], word[0]) && k[m..][0] == k[m];
      UpperIsSameLetter(k[m], word[0]);
      assert m == n;
    }
  }

  /** The validators' test, exactly: the key is reserved for the cluster or for the service itself. */
  lemma BlockedExactly(k: string)
    ensures Blocked(k) <==> Reserved(k, "KUBERNETES_") || Reserved(k, "BOXY_")
  {
    hide Upper, TrimSpace, Reserved;
    ReservedExactly(k, "KUBERNETES_");
    ReservedExactly(k, "BOXY_");
  }

  lemma BlankExactly(k: string)
    ensures TrimSpace(k) == "" <==> forall i | 0 <= i < |k| :: Space(k[i])
  {
    hide Space;
    TrimLeftCuts(k);
    var n :| 0 <= n <= |k| && (forall i | 0 <= i < n :: Space(k[i])) && TrimLeft(k) == k[n..] && (n < |k| ==> !Space(k[n]));
    TrimRightCuts(k[n..]);
    if n < |k| { assert k[n..][0] == k[n]; }
  }

  /** What the validators accept, exactly: few enough keys, each without '=', not blank and not reserved. */
  lemma AcceptedExactly(env: Env, maxKeys: int)
    ensures EnvAccepted(env, maxKeys) <==>
              && (maxKeys > 0 ==> |env| <= maxKeys)
              && forall k | k in env ::
                   && '=' !in k && (exists i :: 0 <= i < |k| && !Space(k[i]))
                   && !Reserved(k, "KUBERNETES_") && !Reserved(k, "BOXY_")
  {
    hide Space, Blocked, Reserved, TrimSpace;
    forall k | k in env
      ensures Blocked(k) <==> Reserved(k, "KUBERNETES_") || Reserved(k, "BOXY_")
      ensures TrimSpace(k) == "" <==> forall i | 0 <= i < |k| :: Space(k[i])
    {
      BlockedExactly(k);
      BlankExactly(k);
    }
  }

  /**
    * No variable a validated command sees is reserved: after any white space, no effective name begins with
    * KUBERNETES_ or BOXY_ in any spelling, whatever the iteration orders.
    */
  lemma ValidatedNamesAreAllowed(sandboxEnv: Env, sandboxOrder: seq<string>, execEnv: Env, execOrder: seq<string>,
                                 maxSandbox: int, maxExec: int, k: string)
    requires OrderOf(sandboxOrder, sandboxEnv) && OrderOf(execOrder, execEnv)
    requires EnvAccepted(sandboxEnv, maxSandbox) && EnvAccepted(execEnv, maxExec)
    requires k in Effective(Envar(sandboxEnv, sandboxOrder, execEnv, execOrder))
    ensures !Reserved(k, "KUBERNETES_") && !Reserved(k, "BOXY_")
    ensures k in execEnv || k in sandboxEnv || k in DEFAULTS
  {
    hide Effective, Envar, Blocked, Reserved;
    Layering(sandboxEnv, sandboxOrder, execEnv, execOrder);
    DefaultsAreAllowed();
    BlockedExactly(k);
  }

  lemma DefaultsAreAllowed()
    ensures !Blocked("PATH") && !Blocked("HOME")
  {
    assert TrimSpace("PATH") == "PATH" && TrimSpace("HOME") == "HOME";
    assert Upper("PATH")[0] == 'P' && Upper("HOME")[0] == 'H';
    assert "KUBERNETES_"[0] == 'K' && "BOXY_"[0] == 'B';
  }
}
