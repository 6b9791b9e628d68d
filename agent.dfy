/** The agent base class: its constructor reads a whitespace-separated
    argument string into the `meta` table of properties, one `key=value`
    token at a time, and notify() stores one more such pair. The code is the
    same in both revisions. */
module Agent {
  import opened Wrappers

  /** The characters operator>> skips between tokens (std::isspace in the
      "C" locale: space, \t, \n, \v, \f, \r). */
  predicate IsSpace(c: char) {
    c == ' ' || 9 <= c as int <= 13
  }

  /** A token as operator>> reads it: non-empty, with no whitespace. */
  predicate Word(t: string) {
    |t| > 0 && forall k :: 0 <= k < |t| ==> !IsSpace(t[k])
  }

  /** The length of the run of non-whitespace characters at the front of s. */
  function TokenEnd(s: string): (n: nat)
    ensures n <= |s|
    ensures forall k :: 0 <= k < n ==> !IsSpace(s[k])
    ensures n < |s| ==> IsSpace(s[n])
  {
    if s == [] || IsSpace(s[0]) then 0 else 1 + TokenEnd(s[1..])
  }

  /** The tokens `for (std::string pair; ss >> pair; )` reads from s. */
  function Tokens(s: string): (ts: seq<string>)
    ensures forall k :: 0 <= k < |ts| ==> Word(ts[k])
    decreases |s|
  {
    if s == [] then []
    else if IsSpace(s[0]) then Tokens(s[1..])
    else
      var n := TokenEnd(s);
      [s[..n]] + Tokens(s[n..])
  }

  /** Words each followed by one space: the shape of the default prefixes
      the constructors put in front of the user's arguments. */
  function Line(ws: seq<string>): string {
    if ws == [] then "" else ws[0] + " " + Line(ws[1..])
  }

  /** The token `k=v`. */
  function Pair(k: string, v: string): string {
    k + "=" + v
  }

  /** std::string::find('='): the index of the first '=', if any. */
  function FindEq(t: string): (r: Option<nat>)
    ensures r.Some? ==> r.value < |t| && t[r.value] == '=' && '=' !in t[..r.value]
    ensures r.None? ==> '=' !in t
  {
    if t == [] then None
    else if t[0] == '=' then Some(0)
    else match FindEq(t[1..])
      case None => None
      case Some(i) => assert t[..i + 1] == [t[0]] + t[1..][..i]; Some(i + 1)
  }

  /** pair.substr(0, pair.find('=')): the text before the first '=', or the
      whole token when there is none (npos takes the rest). */
  function Key(t: string): (r: string)
    ensures '=' !in t ==> r == t
    ensures '=' !in r && |r| <= |t|
  {
    match FindEq(t)
    case Some(i) => t[..i]
    case None => t
  }

  /** pair.substr(pair.find('=') + 1): the text after the first '='. With no
      '=', find returns npos and npos + 1 wraps around to 0, so the value is
      the whole token. */
  function Value(t: string): (r: string)
    ensures '=' !in t ==> r == t
    ensures |r| <= |t|
  {
    match FindEq(t)
    case Some(i) => t[i + 1..]
    case None => t
  }

  /** A pair of two words is a word. */
  lemma PairWord(k: string, v: string)
    requires Word(k) && Word(v)
    ensures Word(Pair(k, v))
  {
    var t := Pair(k, v);
    forall i | 0 <= i < |t| ensures !IsSpace(t[i]) {
      if i < |k| {
        assert t[i] == k[i];
      } else if i > |k| {
        assert t[i] == v[i - |k| - 1];
      }
    }
  }

  /** Splitting undoes pairing, as long as the key has no '='. */
  lemma SplitPair(k: string, v: string)
    requires '=' !in k
    ensures Key(Pair(k, v)) == k && Value(Pair(k, v)) == v
  {
    var t := Pair(k, v);
    assert t[..|k|] == k && t[|k|] == '=' && t[|k| + 1..] == v;
    assert forall j :: 0 <= j < |k| ==> t[j] == k[j];
    var i := FindEq(t).value;
    assert forall j :: 0 <= j < i ==> t[..i][j] == t[j];
  }

  /** Pairing undoes splitting for a token that has an '='. */
  lemma JoinPair(t: string)
    requires '=' in t
    ensures Pair(Key(t), Value(t)) == t
  {
    var i := FindEq(t).value;
    assert t == t[..i] + [t[i]] + t[i + 1..];
  }

  /** meta[key] = value for each token in turn. */
  function Store(meta: map<string, string>, toks: seq<string>): (r: map<string, string>)
    ensures forall k :: k in meta ==> k in r
    ensures toks != [] ==> Key(toks[|toks| - 1]) in r && r[Key(toks[|toks| - 1])] == Value(toks[|toks| - 1])
  {
    if toks == [] then meta
    else
      var t := toks[|toks| - 1];
      Store(meta, toks[..|toks| - 1])[Key(t) := Value(t)]
  }

  /** Storing a + b stores a, then b. */
  lemma {:induction false} StoreAppend(meta: map<string, string>, a: seq<string>, b: seq<string>)
    ensures Store(meta, a + b) == Store(Store(meta, a), b)
  {
    if b == [] {
      assert a + b == a;
    } else {
      assert (a + b)[..|a + b| - 1] == a + b[..|b| - 1];
      StoreAppend(meta, a, b[..|b| - 1]);
    }
  }

  /** j is the last token whose key is k. */
  ghost predicate LastFor(toks: seq<string>, k: string, j: int) {
    0 <= j < |toks| && Key(toks[j]) == k && forall j' :: j < j' < |toks| ==> Key(toks[j']) != k
  }

  /** Some token of toks has key k. */
  ghost predicate Names(toks: seq<string>, k: string) {
    exists j :: 0 <= j < |toks| && Key(toks[j]) == k
  }

  /** A token list ending in t names k iff its front does or t does. */
  lemma NamesSnoc(pre: seq<string>, t: string, k: string)
    ensures Names(pre + [t], k) <==> Names(pre, k) || Key(t) == k
  {
    var toks := pre + [t];
    if Names(pre, k) {
      var j :| 0 <= j < |pre| && Key(pre[j]) == k;
      assert toks[j] == pre[j];
    }
    if Key(t) == k {
      assert toks[|pre|] == t;
    }
    if Names(toks, k) {
      var j :| 0 <= j < |toks| && Key(toks[j]) == k;
      assert j < |pre| ==> toks[j] == pre[j];
    }
  }

  /** A key is in the table iff it was there before or some token names it. */
  lemma {:induction false} StoreKeys(meta: map<string, string>, toks: seq<string>, k: string)
    ensures k in Store(meta, toks) <==> k in meta || exists j :: 0 <= j < |toks| && Key(toks[j]) == k
  {
    if toks != [] {
      var pre, t := toks[..|toks| - 1], toks[|toks| - 1];
      StoreKeys(meta, pre, k);
      assert toks == pre + [t];
      NamesSnoc(pre, t, k);
    }
  }

  /** Later tokens override earlier ones: the value stored under k is that of
      the last token naming k. */
  lemma {:induction false} StoreLast(meta: map<string, string>, toks: seq<string>, k: string, j: int)
    requires LastFor(toks, k, j)
    ensures k in Store(meta, toks) && Store(meta, toks)[k] == Value(toks[j])
  {
    var pre, t := toks[..|toks| - 1], toks[|toks| - 1];
    if j < |toks| - 1 {
      assert LastFor(pre, k, j);
      StoreLast(meta, pre, k, j);
    }
  }

  /** A key no token names keeps its old value, or stays absent. */
  lemma {:induction false} StoreUntouched(meta: map<string, string>, toks: seq<string>, k: string)
    requires forall j :: 0 <= j < |toks| ==> Key(toks[j]) != k
    ensures k in Store(meta, toks) <==> k in meta
    ensures k in meta ==> Store(meta, toks)[k] == meta[k]
  {
    if toks != [] {
      var pre := toks[..|toks| - 1];
      assert forall j :: 0 <= j < |pre| ==> pre[j] == toks[j];
      StoreUntouched(meta, pre, k);
    }
  }

  /** The tokens of a single word are that word. */
  lemma TokensOfWord(w: string)
    requires Word(w)
    ensures Tokens(w) == [w]
  {
    assert TokenEnd(w) == |w|;
    assert w[..|w|] == w && w[|w|..] == [];
  }

  /** TokenEnd stops at the same place when more text follows a whitespace
      boundary. */
  lemma {:induction false} TokenEndAppend(a: string, r: string)
    requires TokenEnd(a) < |a| || (|r| > 0 && IsSpace(r[0]))
    ensures TokenEnd(a + r) == TokenEnd(a)
  {
    if a != [] && !IsSpace(a[0]) {
      assert (a + r)[1..] == a[1..] + r;
      TokenEndAppend(a[1..], r);
    }
  }

  /** Any whitespace character separates tokens: the stream reads a, then
      b. */
  lemma {:induction false} TokensSplit(a: string, c: char, b: string)
    requires IsSpace(c)
    ensures Tokens(a + [c] + b) == Tokens(a) + Tokens(b)
    decreases |a|, 1
  {
    var s := a + [c] + b;
    if a == [] {
      assert s[1..] == b;
    } else if IsSpace(a[0]) {
      assert s[1..] == a[1..] + [c] + b;
      TokensSplit(a[1..], c, b);
    } else {
      TokensSplitWord(a, c, b);
    }
  }

  /** TokensSplit when a starts with a token: that token comes first. */
  lemma {:induction false} TokensSplitWord(a: string, c: char, b: string)
    requires a != [] && !IsSpace(a[0]) && IsSpace(c)
    ensures Tokens(a + [c] + b) == Tokens(a) + Tokens(b)
    decreases |a|, 0
  {
    var s := a + [c] + b;
    var n := TokenEnd(a);
    assert s == a + ([c] + b);
    TokenEndAppend(a, [c] + b);
    assert s[..n] == a[..n];
    assert s[n..] == a[n..] + [c] + b;
    TokensSplit(a[n..], c, b);
  }

  /** A word followed by a space reads as that word, then the rest. */
  lemma TokensCons(w: string, rest: string)
    requires Word(w)
    ensures Tokens(w + " " + rest) == [w] + Tokens(rest)
  {
    TokensSplit(w, ' ', rest);
    TokensOfWord(w);
  }

  /** A prefix of words followed by the arguments reads as those words, then
      the arguments' own tokens. */
  lemma {:induction false} TokensOfLine(ws: seq<string>, args: string)
    requires forall k :: 0 <= k < |ws| ==> Word(ws[k])
    ensures Tokens(Line(ws) + args) == ws + Tokens(args)
  {
    if ws != [] {
      var w, rest := ws[0], Line(ws[1..]) + args;
      calc {
        Tokens(Line(ws) + args);
        == { assert Line(ws) + args == w + " " + rest; }
        Tokens(w + " " + rest);
        == { TokensCons(w, rest); }
        [w] + Tokens(rest);
        == { TokensOfLine(ws[1..], args); }
        [w] + (ws[1..] + Tokens(args));
        == { assert [w] + ws[1..] == ws; }
        ws + Tokens(args);
      }
    } else {
      assert Line(ws) + args == args;
    }
  }

  /** The meta table a constructor builds from a default prefix and the
      user's arguments. */
  function Configure(defaults: seq<string>, args: string): map<string, string> {
    Store(map[], Tokens(Line(defaults) + args))
  }

  /** User arguments override the defaults: a key some argument token names
      takes the value of the last such token, and any other key has its
      default, if it has one. */
  lemma ArgsOverrideDefaults(defaults: seq<string>, args: string, k: string)
    requires forall i :: 0 <= i < |defaults| ==> Word(defaults[i])
    ensures forall j :: LastFor(Tokens(args), k, j) ==>
              k in Configure(defaults, args) && Configure(defaults, args)[k] == Value(Tokens(args)[j])
    ensures (forall j :: 0 <= j < |Tokens(args)| ==> Key(Tokens(args)[j]) != k) ==>
              (k in Configure(defaults, args) <==> k in Store(map[], defaults)) &&
              (k in Store(map[], defaults) ==> Configure(defaults, args)[k] == Store(map[], defaults)[k])
  {
    TokensOfLine(defaults, args);
    StoreAppend(map[], defaults, Tokens(args));
    forall j | LastFor(Tokens(args), k, j)
      ensures k in Configure(defaults, args) && Configure(defaults, args)[k] == Value(Tokens(args)[j])
    {
      StoreLast(Store(map[], defaults), Tokens(args), k, j);
    }
    if forall j :: 0 <= j < |Tokens(args)| ==> Key(Tokens(args)[j]) != k {
      StoreUntouched(Store(map[], defaults), Tokens(args), k);
    }
  }

  /** The loop of agent(args): meta[key] = value for each token in turn. */
  method StoreAll(toks: seq<string>) returns (m: map<string, string>)
    ensures m == Store(map[], toks)
  {
    m := map[];
    for i := 0 to |toks|
      invariant m == Store(map[], toks[..i])
    {
      assert toks[..i + 1][..i] == toks[..i];
      m := m[Key(toks[i]) := Value(toks[i])];
    }
    assert toks[..|toks|] == toks;
  }

  /** "name=unknown role=unknown ", put in front of every argument string. */
  const AgentDefaults: seq<string> := [Pair("name", "unknown"), Pair("role", "unknown")]

  /** The base agent: a table of string properties. */
  class Agent {
    var meta: map<string, string>

    /** agent(args): read "name=unknown role=unknown " + args token by token. */
    constructor (args: string)
      ensures meta == Configure(AgentDefaults, args)
    {
      var m := StoreAll(Tokens(Line(AgentDefaults) + args));
      meta := m;
    }

    /** notify(msg): store msg as one key=value pair, without splitting it
        at whitespace; nothing else changes. */
    method Notify(msg: string)
      modifies this
      ensures meta == old(meta)[Key(msg) := Value(msg)]
    {
      meta := meta[Key(msg) := Value(msg)];
    }

    /** property(key): meta.at(key), which throws when the key is missing. */
    function Property(key: string): (r: Option<string>)
      reads this
      ensures r.Some? <==> key in meta
      ensures r.Some? ==> r.value == meta[key]
    {
      if key in meta then Some(meta[key]) else None
    }
  }
}
