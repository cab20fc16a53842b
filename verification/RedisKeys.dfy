/** Redis cache keys: building them, escaping them into SCAN patterns, and stripping them. */
module RedisKeys {
  import opened Options

  // ---------------------------------------------------------------- glob matching

  /** How Redis reads a bracket expression: given the pattern after '[' and a character,
      the rest of the pattern if the character is accepted. The results below hold for
      every such reading. */
  type Brackets = (string, char) -> Option<string>

  /** Redis string matching with * ? [..] and backslash escapes. */
  predicate Match(b: Brackets, p: string, s: string)
    decreases |p| + |s|
  {
    if p == [] then s == []
    else if p[0] == '*' then Match(b, p[1..], s) || (s != [] && Match(b, p, s[1..]))
    else if s == [] then false
    else if p[0] == '?' then Match(b, p[1..], s[1..])
    else if p[0] == '[' then
      var rest := b(p[1..], s[0]);
      rest.Some? && |rest.value| < |p| && Match(b, rest.value, s[1..])
    else if p[0] == '\\' && |p| >= 2 then s[0] == p[1] && Match(b, p[2..], s[1..])
    else s[0] == p[0] && Match(b, p[1..], s[1..])
  }

  predicate IsMeta(c: char) {
    c == '\\' || c == '*' || c == '?' || c == '[' || c == ']'
  }

  /** globEscaper: every metacharacter gets a backslash in front. */
  function Escape(s: string): string {
    if s == [] then []
    else (if IsMeta(s[0]) then ['\\', s[0]] else [s[0]]) + Escape(s[1..])
  }

  /** Escaping works character by character: a backslash, star, question mark or bracket gets a
      backslash in front, any other character stays. */
  lemma {:induction false} EscapeAppends(s: string, c: char)
    ensures Escape([]) == []
    ensures Escape(s + [c]) ==
              Escape(s) + (if c == '\\' || c == '*' || c == '?' || c == '[' || c == ']' then ['\\', c] else [c])
  {
    if s == [] {
      assert s + [c] == [c];
    } else {
      assert (s + [c])[1..] == s[1..] + [c];
      EscapeAppends(s[1..], c);
    }
  }

  lemma {:induction false} StarMatchesAll(b: Brackets, s: string)
    ensures Match(b, "*", s)
  {
    assert "*"[1..] == [];
    if s != [] { StarMatchesAll(b, s[1..]); }
  }

  /** An escaped prefix followed by a star matches exactly the strings with that prefix. */
  lemma {:induction false} EscapedPrefixMatches(b: Brackets, p: string, k: string)
    ensures Match(b, Escape(p) + "*", k) <==> p <= k
  {
    var pattern := Escape(p) + "*";
    if p == [] {
      assert pattern == "*";
      StarMatchesAll(b, k);
    } else {
      var rest := Escape(p[1..]) + "*";
      if IsMeta(p[0]) {
        assert pattern == ['\\', p[0]] + rest;
        assert pattern[2..] == rest;
      } else {
        assert pattern == [p[0]] + rest;
        assert pattern[1..] == rest;
      }
      if k != [] {
        EscapedPrefixMatches(b, p[1..], k[1..]);
        assert p <= k <==> p[0] == k[0] && p[1..] <= k[1..] by { PrefixTail(p, k); }
      }
    }
  }

  lemma PrefixTail(p: string, k: string)
    requires p != [] && k != []
    ensures p <= k <==> p[0] == k[0] && p[1..] <= k[1..]
  {
    if p[0] == k[0] && p[1..] <= k[1..] {
      assert p == [p[0]] + p[1..] && k == [k[0]] + k[1..];
      forall i | 0 <= i < |p| ensures p[i] == k[i] {
        if i > 0 { assert p[i] == p[1..][i - 1] == k[1..][i - 1]; }
      }
    }
  }

  // ---------------------------------------------------------------- keys

  datatype KeyBuilder = KeyBuilder(prefix: string, separator: string)

  function Join(parts: seq<string>, separator: string): string {
    if parts == [] then ""
    else if |parts| == 1 then parts[0]
    else parts[0] + separator + Join(parts[1..], separator)
  }

  function Build(k: KeyBuilder, parts: seq<string>): string {
    if k.prefix == "" then Join(parts, k.separator)
    else if parts == [] then k.prefix
    else k.prefix + k.separator + Join(parts, k.separator)
  }

  /** Building part by part: each further part is added after a separator, behind the prefix if
      there is one. */
  lemma {:induction false} BuildAppends(k: KeyBuilder, parts: seq<string>, part: string)
    ensures Build(k, []) == k.prefix
    ensures Build(k, parts + [part]) ==
              if k.prefix == "" && parts == [] then part else Build(k, parts) + k.separator + part
  {
    JoinAppends(parts, part, k.separator);
    assert parts + [part] != [];
    if parts == [] { assert parts + [part] == [part]; }
  }

  lemma {:induction false} JoinAppends(parts: seq<string>, part: string, separator: string)
    ensures Join(parts + [part], separator) == if parts == [] then part else Join(parts, separator) + separator + part
  {
    if parts == [] {
      assert parts + [part] == [part];
    } else {
      assert (parts + [part])[1..] == parts[1..] + [part];
      JoinAppends(parts[1..], part, separator);
    }
  }

  /** A cache over a builder whose base prefix is not empty, as newRedisCache demands. */
  predicate IsCacheBuilder(k: KeyBuilder) {
    Build(k, []) != ""
  }

  function BuildPattern(k: KeyBuilder, filter: string): string {
    Escape(if filter == "" then Build(k, []) else Build(k, [filter])) + "*"
  }

  function StripPrefix(k: KeyBuilder, cacheKey: string): (user: string)
    ensures var head := Build(k, []) + ":";
            cacheKey == head + user || (user == cacheKey && !(head <= cacheKey))
  {
    var prefix := Build(k, []) + ":";
    if prefix <= cacheKey then cacheKey[|prefix|..] else cacheKey
  }

  /** stripPrefix undoes Build for every user key exactly when the separator is ":". */
  lemma StripInvertsBuildIff(k: KeyBuilder, user: string)
    requires IsCacheBuilder(k)
    ensures StripPrefix(k, Build(k, [user])) == user <==> k.separator == ":"
  {
    var base, key := k.prefix, k.prefix + k.separator + user;
    assert Build(k, []) == base && Build(k, [user]) == key;
    var p := base + ":";
    if k.separator == ":" {
      assert key == p + user;
    } else if p <= key {
      assert key[|p|..] == user ==> |k.separator| == 1;
      assert p[|base|] == ':' && key[|base|] == (k.separator + user)[0];
    }
  }

  /** Building is injective in the user key. */
  lemma BuildIsInjective(k: KeyBuilder, u: string, v: string)
    requires IsCacheBuilder(k) && Build(k, [u]) == Build(k, [v])
    ensures u == v
  {
    var head := k.prefix + k.separator;
    assert Build(k, [u])[|head|..] == u && Build(k, [v])[|head|..] == v;
  }

  // ---------------------------------------------------------------- listing

  /** Keys: the scan yields the stored keys in some order; the matching ones are stripped. */
  method Keys(b: Brackets, k: KeyBuilder, scan: seq<string>, filter: string) returns (keys: seq<string>)
    requires IsCacheBuilder(k)
    ensures keys == Listed(b, k, scan, filter)
  {
    var pattern := BuildPattern(k, filter);
    keys := [];
    for i := 0 to |scan|
      invariant keys == Listed(b, k, scan[..i], filter)
    {
      assert scan[..i + 1][..i] == scan[..i];
      if Match(b, pattern, scan[i]) {
        keys := keys + [StripPrefix(k, scan[i])];
      }
    }
    assert scan[..|scan|] == scan;
  }

  function Listed(b: Brackets, k: KeyBuilder, scan: seq<string>, filter: string): seq<string> {
    if scan == [] then []
    else
      var last := scan[|scan| - 1];
      Listed(b, k, scan[..|scan| - 1], filter)
      + (if Match(b, BuildPattern(k, filter), last) then [StripPrefix(k, last)] else [])
  }

  function Select(users: seq<string>, filter: string): seq<string> {
    if users == [] then []
    else
      var last := users[|users| - 1];
      Select(users[..|users| - 1], filter) + (if filter <= last then [last] else [])
  }

  /** The stored keys of a list of user keys. */
  function StoredKeys(k: KeyBuilder, users: seq<string>): (r: seq<string>)
    ensures |r| == |users|
  {
    if users == [] then []
    else StoredKeys(k, users[..|users| - 1]) + [Build(k, [users[|users| - 1]])]
  }

  lemma PatternMatchesUserPrefix(b: Brackets, k: KeyBuilder, filter: string, user: string)
    requires IsCacheBuilder(k)
    ensures Match(b, BuildPattern(k, filter), Build(k, [user])) <==> filter <= user
  {
    var head := k.prefix + k.separator;
    if filter == "" {
      EscapedPrefixMatches(b, k.prefix, head + user);
      assert k.prefix <= head + user;
    } else {
      EscapedPrefixMatches(b, head + filter, head + user);
      assert filter <= user <==> head + filter <= head + user by {
        assert (head + user)[|head|..] == user;
        if head + filter <= head + user {
          assert (head + user)[..|head + filter|] == head + filter;
          assert user[..|filter|] == filter;
        }
        if filter <= user { assert user == filter + user[|filter|..]; assert head + user == head + filter + user[|filter|..]; }
      }
    }
  }

  /** When the store holds only this builder's keys, Keys(filter) lists exactly the user
      keys that start with the filter, in scan order and with the prefix removed. */
  lemma {:induction false} KeysAreTheUserKeys(b: Brackets, k: KeyBuilder, users: seq<string>, filter: string)
    requires IsCacheBuilder(k) && k.separator == ":"
    ensures Listed(b, k, StoredKeys(k, users), filter) == Select(users, filter)
  {
    if users != [] {
      var init, last := users[..|users| - 1], users[|users| - 1];
      var stored := StoredKeys(k, users);
      assert stored[..|stored| - 1] == StoredKeys(k, init);
      KeysAreTheUserKeys(b, k, init, filter);
      PatternMatchesUserPrefix(b, k, filter, last);
      StripInvertsBuildIff(k, last);
    }
  }

  /** The pattern Clear and Size use (no filter) reaches into another namespace exactly
      when one of base prefix and the other's key head continues the other, whatever the
      other's separator: base "user" also matches "users:1". */
  lemma NamespacesOverlapIff(b: Brackets, k: KeyBuilder, other: KeyBuilder)
    requires IsCacheBuilder(k) && IsCacheBuilder(other)
    ensures var head := other.prefix + other.separator;
            (exists u: string :: Match(b, BuildPattern(k, ""), Build(other, [u])))
            <==> k.prefix <= head || head <= k.prefix
  {
    var head := other.prefix + other.separator;
    forall u: string
      ensures Build(other, [u]) == head + u
      ensures Match(b, BuildPattern(k, ""), Build(other, [u])) <==> k.prefix <= head + u
    {
      EscapedPrefixMatches(b, k.prefix, head + u);
    }
    if k.prefix <= head {
      assert k.prefix <= head + "";
      assert Match(b, BuildPattern(k, ""), Build(other, [""]));
    } else if head <= k.prefix {
      var u := k.prefix[|head|..];
      assert k.prefix == head + u;
      assert Match(b, BuildPattern(k, ""), Build(other, [u]));
    }
    assert forall u: string | k.prefix <= head + u :: k.prefix <= head || head <= k.prefix;
  }
}
