/** The API-key guard of src/shared/guards/api-key.guard.ts: a request passes
    when its `Authorization` header is `Bearer <key>` for the configured key. */
module ApiKeyGuard {
  import opened Store

  /** JavaScript's `s.split(sep)` for a one-character separator: the pieces
      between separators, empty pieces included; never an empty list. */
  function Split(s: string, sep: char): (parts: seq<string>)
    ensures |parts| >= 1
    ensures forall i :: 0 <= i < |parts| ==> sep !in parts[i]
  {
    if s == [] then [""]
    else
      var rest := Split(s[1..], sep);
      if s[0] == sep then [""] + rest
      else [[s[0]] + rest[0]] + rest[1..]
  }

  /** JavaScript's `parts.join(sep)`. */
  function Join(parts: seq<string>, sep: char): string
    requires |parts| >= 1
  {
    if |parts| == 1 then parts[0] else parts[0] + [sep] + Join(parts[1..], sep)
  }

  /** Splitting loses nothing: joining the pieces gives back the header. */
  lemma {:induction false} JoinSplit(s: string, sep: char)
    ensures Join(Split(s, sep), sep) == s
  {
    if s != [] {
      JoinSplit(s[1..], sep);
      var rest := Split(s[1..], sep);
      if s[0] != sep {
        if |rest| > 1 {
          assert Join(rest, sep) == rest[0] + [sep] + Join(rest[1..], sep);
          assert ([[s[0]] + rest[0]] + rest[1..])[1..] == rest[1..];
        }
      } else {
        assert ([""] + rest)[1..] == rest;
      }
    }
  }

  /** And splitting is the inverse of joining pieces free of the separator. */
  lemma {:induction false} SplitJoin(parts: seq<string>, sep: char)
    requires |parts| >= 1
    requires forall i :: 0 <= i < |parts| ==> sep !in parts[i]
    ensures Split(Join(parts, sep), sep) == parts
    decreases |parts|, |parts[0]|
  {
    if |parts[0]| > 0 {
      var p := [parts[0][1..]] + parts[1..];
      assert forall i :: 0 <= i < |p| ==> sep !in p[i] by {
        forall i | 0 <= i < |p| ensures sep !in p[i] {
          if i == 0 {
            assert forall c :: c in parts[0][1..] ==> c in parts[0];
          } else {
            assert p[i] == parts[i];
          }
        }
      }
      SplitJoin(p, sep);
      assert JoinCons(parts, sep);
      assert Join(parts, sep)[1..] == Join(p, sep) by {
        if |parts| > 1 {
          assert p[1..] == parts[1..];
        }
      }
      assert parts[0][0] != sep by {
        assert parts[0][0] in parts[0];
      }
      assert Split(Join(parts, sep), sep) == [[parts[0][0]] + p[0]] + p[1..];
      assert [parts[0][0]] + parts[0][1..] == parts[0];
    } else if |parts| > 1 {
      SplitJoin(parts[1..], sep);
      assert Join(parts, sep) == [sep] + Join(parts[1..], sep);
      assert Join(parts, sep)[1..] == Join(parts[1..], sep);
      assert parts == [""] + parts[1..];
    }
  }

  /** The join of pieces starts with the first piece's first character. */
  predicate JoinCons(parts: seq<string>, sep: char)
    requires |parts| >= 1
  {
    |parts[0]| > 0 ==> |Join(parts, sep)| > 0 && Join(parts, sep)[0] == parts[0][0]
  }

  /** The position of the first `c` in `s`, or `|s|`. */
  function FirstIndexOf(s: string, c: char): (i: nat)
    ensures i <= |s|
    ensures forall j :: 0 <= j < i ==> s[j] != c
    ensures i < |s| ==> s[i] == c
  {
    if s == [] || s[0] == c then 0 else 1 + FirstIndexOf(s[1..], c)
  }

  /** Any position with no `c` before it and `c` or the end at it is the first one. */
  lemma FirstIndexOfUnique(s: string, c: char, i: nat)
    requires i <= |s|
    requires forall j :: 0 <= j < i ==> s[j] != c
    requires i == |s| || s[i] == c
    ensures FirstIndexOf(s, c) == i
  {
  }

  /** The first piece runs up to the first separator; the others are the
      pieces of what follows it. */
  lemma {:induction false} SplitHead(s: string, sep: char)
    ensures var i := FirstIndexOf(s, sep);
      && Split(s, sep)[0] == s[..i]
      && (i == |s| ==> |Split(s, sep)| == 1)
      && (i < |s| ==> Split(s, sep)[1..] == Split(s[i + 1..], sep))
  {
    if s != [] && s[0] != sep {
      SplitHead(s[1..], sep);
      assert s[..FirstIndexOf(s, sep)] == [s[0]] + s[1..][..FirstIndexOf(s[1..], sep)];
      var i := FirstIndexOf(s, sep);
      if i < |s| {
        assert s[i + 1..] == s[1..][i..];
      }
    }
  }

  /** What the guard decides: let the request through, refuse it with 401 and
      a message, or fail with a server error (no key configured). */
  datatype Decision = Allow | Unauthorized(message: string) | ServerError(message: string)

  const NoHeader := "No authorization header found"
  const BadFormat := "Invalid authorization format"
  const BadKey := "Invalid API Key"
  const NoKeyConfigured := "API_KEY not set in environment"

  /** The second piece of the header, undefined when there is none. */
  function Token(parts: seq<string>): Option<string> {
    if |parts| >= 2 then Some(parts[1]) else None
  }

  /** `canActivate`, given the raw `Authorization` header and the configured
      `API_KEY`, both possibly missing. The checks come in the source's order:
      header present, scheme, key configured, token. */
  function CanActivate(authorization: Option<string>, apiKey: Option<string>): (d: Decision)
    ensures d.ServerError? ==> !Truthy(apiKey)
    ensures d.Allow? ==> Truthy(authorization) && Truthy(apiKey)
  {
    if !Truthy(authorization) then Unauthorized(NoHeader)
    else
      var parts := Split(authorization.value, ' ');
      if parts[0] != "Bearer" then Unauthorized(BadFormat)
      else if !Truthy(apiKey) then ServerError(NoKeyConfigured)
      else if Token(parts) != Some(apiKey.value) then Unauthorized(BadKey)
      else Allow
  }

  /** The accepted headers: `Bearer `, then the key, then the end of the
      header or a space. The key must be non-empty and free of spaces, and
      anything after the next space is ignored. */
  predicate BearerOf(h: string, k: string) {
    && k != "" && ' ' !in k
    && |h| >= 7 + |k|
    && h[..7 + |k|] == "Bearer " + k
    && (|h| == 7 + |k| || h[7 + |k|] == ' ')
  }

  /** The guard lets a request through exactly when its header is `BearerOf` the key. */
  lemma AllowIff(authorization: Option<string>, apiKey: Option<string>)
    ensures CanActivate(authorization, apiKey) == Allow <==>
      authorization.Some? && apiKey.Some? && BearerOf(authorization.value, apiKey.value)
  {
    if authorization.Some? && apiKey.Some? {
      if CanActivate(authorization, apiKey) == Allow {
        AllowedIsBearer(authorization.value, apiKey.value);
      }
      if BearerOf(authorization.value, apiKey.value) {
        BearerIsAllowed(authorization.value, apiKey.value);
      }
    }
  }

  lemma AllowedIsBearer(h: string, k: string)
    requires CanActivate(Some(h), Some(k)) == Allow
    ensures BearerOf(h, k)
  {
    SplitHead(h, ' ');
    var i := FirstIndexOf(h, ' ');
    assert h[..i] == "Bearer";
    var rest := h[i + 1..];
    SplitHead(rest, ' ');
    var j := FirstIndexOf(rest, ' ');
    assert Split(h, ' ')[1] == rest[..j] == k;
    assert forall c :: c in k ==> c != ' ' by {
      forall c | c in k ensures c != ' ' {
        var m :| 0 <= m < |k| && k[m] == c;
        assert rest[m] == c;
      }
    }
    assert h[..7 + |k|] == h[..i] + [' '] + rest[..j];
    if |h| > 7 + |k| {
      assert h[7 + |k|] == rest[j];
    }
  }

  lemma BearerIsAllowed(h: string, k: string)
    requires BearerOf(h, k)
    ensures CanActivate(Some(h), Some(k)) == Allow
  {
    assert h[..7] == (h[..7 + |k|])[..7];
    AfterScheme(h);
    var rest := h[7..];
    assert rest[..|k|] == h[7..7 + |k|] == k;
    if |h| > 7 + |k| {
      assert rest[|k|] == h[7 + |k|];
    }
    FirstPiece(rest, k);
  }

  /** A header starting `Bearer ` splits into `Bearer` and the pieces of the rest. */
  lemma AfterScheme(h: string)
    requires |h| >= 7 && h[..7] == "Bearer "
    ensures Split(h, ' ')[0] == "Bearer"
    ensures |Split(h, ' ')| >= 2 && Split(h, ' ')[1..] == Split(h[7..], ' ')
  {
    assert forall j :: 0 <= j < 6 ==> h[j] == "Bearer"[j] && h[j] != ' ';
    FirstIndexOfUnique(h, ' ', 6);
    SplitHead(h, ' ');
    assert h[..6] == "Bearer";
  }

  /** The first piece of a string starting with a space-free `k` followed by a
      space or the end is `k`. */
  lemma FirstPiece(s: string, k: string)
    requires |s| >= |k| && s[..|k|] == k && ' ' !in k
    requires |s| == |k| || s[|k|] == ' '
    ensures Split(s, ' ')[0] == k
  {
    forall m | 0 <= m < |k| ensures s[m] != ' ' {
      assert s[m] == k[m];
    }
    FirstIndexOfUnique(s, ' ', |k|);
    SplitHead(s, ' ');
  }

  /** The header's first word is `Bearer`: the header is that word alone or
      starts with it and a space. */
  predicate HasBearerScheme(h: string) {
    h == "Bearer" || (|h| >= 7 && h[..7] == "Bearer ")
  }

  lemma SchemeIff(h: string)
    ensures Split(h, ' ')[0] == "Bearer" <==> HasBearerScheme(h)
  {
    if Split(h, ' ')[0] == "Bearer" {
      SchemeOnlyIf(h);
    }
    if HasBearerScheme(h) {
      SchemeIf(h);
    }
  }

  lemma SchemeOnlyIf(h: string)
    requires Split(h, ' ')[0] == "Bearer"
    ensures HasBearerScheme(h)
  {
    SplitHead(h, ' ');
    var i := FirstIndexOf(h, ' ');
    assert |h[..i]| == 6;
    if i < |h| {
      assert h[..7] == h[..6] + [h[6]];
    } else {
      assert h == h[..i];
    }
  }

  lemma SchemeIf(h: string)
    requires HasBearerScheme(h)
    ensures Split(h, ' ')[0] == "Bearer"
  {
    assert h[..6] == "Bearer";
    assert forall j :: 0 <= j < 6 ==> h[j] == "Bearer"[j] && h[j] != ' ';
    FirstIndexOfUnique(h, ' ', 6);
    SplitHead(h, ' ');
  }

  /** Every refusal, with its message, in the source's order: a missing or
      empty header; a header whose first word is not `Bearer`; then, only for
      such headers, a missing key configuration; and last any other header. */
  lemma Refusals(authorization: Option<string>, apiKey: Option<string>)
    ensures var d := CanActivate(authorization, apiKey);
      && (d == Unauthorized(NoHeader) <==> !Truthy(authorization))
      && (d == Unauthorized(BadFormat) <==> Truthy(authorization) && !HasBearerScheme(authorization.value))
      && (d == ServerError(NoKeyConfigured) <==>
            Truthy(authorization) && HasBearerScheme(authorization.value) && !Truthy(apiKey))
      && (d == Unauthorized(BadKey) <==>
            Truthy(authorization) && HasBearerScheme(authorization.value) && Truthy(apiKey) &&
            !BearerOf(authorization.value, apiKey.value))
  {
    if Truthy(authorization) {
      SchemeIff(authorization.value);
      AllowIff(authorization, apiKey);
    }
  }

  /** A bare `Bearer` header is refused: there is no token to compare. */
  lemma BareSchemeRefused(apiKey: Option<string>)
    requires Truthy(apiKey)
    ensures CanActivate(Some("Bearer"), apiKey) == Unauthorized(BadKey)
  {
    FirstIndexOfUnique("Bearer", ' ', 6);
    SplitHead("Bearer", ' ');
  }
}
