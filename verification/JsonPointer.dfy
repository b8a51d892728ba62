/** JSON values, and pointers into them as sections 3 and 4 of RFC 6901 define them. */
module JsonPointer {
  import opened Options
  import opened Text

  datatype Json =
    | Null
    | Bool(b: bool)
    | Num(digits: string)
    | Str(text: string)
    | Arr(items: seq<Json>)
    | Obj(members: seq<Member>)

  datatype Member = Member(key: string, value: Json)

  predicate IsLeaf(v: Json) {
    !v.Arr? && !v.Obj?
  }

  function Lookup(ms: seq<Member>, key: string): (r: Option<Json>)
    ensures r.Some? ==> exists i :: 0 <= i < |ms| && ms[i] == Member(key, r.value)
  {
    if ms == [] then None
    else if ms[|ms| - 1].key == key then Some(ms[|ms| - 1].value)
    else Lookup(ms[..|ms| - 1], key)
  }

  ghost predicate DistinctKeys(ms: seq<Member>) {
    forall i, j :: 0 <= i < j < |ms| ==> ms[i].key != ms[j].key
  }

  /** No object holds a key twice. */
  ghost predicate WellFormed(v: Json) {
    match v
    case Arr(items) => forall i :: 0 <= i < |items| ==> WellFormed(items[i])
    case Obj(members) =>
      DistinctKeys(members) && forall i :: 0 <= i < |members| ==> WellFormed(members[i].value)
    case _ => true
  }

  // ---- Reference tokens ----

  function Replace(s: string, c: char, r: string): string {
    if s == "" then "" else (if s[0] == c then r else [s[0]]) + Replace(s[1..], c, r)
  }

  /** The source escapes in two passes, tildes first. */
  function Escape(key: string): string {
    Replace(Replace(key, '~', "~0"), '/', "~1")
  }

  /** What a token stands for; a stray tilde or a slash makes it no token at all. */
  function Unescape(token: string): Option<string> {
    if token == "" then Some("")
    else if token[0] == '/' then None
    else if token[0] != '~' then
      match Unescape(token[1..])
      case None => None
      case Some(rest) => Some([token[0]] + rest)
    else if |token| >= 2 && (token[1] == '0' || token[1] == '1') then
      match Unescape(token[2..])
      case None => None
      case Some(rest) => Some([if token[1] == '0' then '~' else '/'] + rest)
    else None
  }

  function EscapeChar(c: char): string {
    if c == '~' then "~0" else if c == '/' then "~1" else [c]
  }

  lemma {:induction false} ReplaceAppend(s: string, t: string, c: char, r: string)
    ensures Replace(s + t, c, r) == Replace(s, c, r) + Replace(t, c, r)
  {
    if s == "" {
      assert s + t == t;
    } else {
      assert (s + t)[1..] == s[1..] + t;
      ReplaceAppend(s[1..], t, c, r);
    }
  }

  lemma EscapeCons(key: string)
    requires key != ""
    ensures Escape(key) == EscapeChar(key[0]) + Escape(key[1..])
  {
    var rest := Replace(key[1..], '~', "~0");
    if key[0] == '~' {
      ReplaceAppend("~0", rest, '/', "~1");
      assert "~0" == ['~', '0'] && "~0"[1..] == ['0'] && ['0'][1..] == "";
      assert Replace(['0'], '/', "~1") == ['0'];
    } else {
      ReplaceAppend([key[0]], rest, '/', "~1");
      assert [key[0]][1..] == "";
    }
  }

  /** Escaping loses nothing, leaves no slash, and is the only token for its key. */
  lemma {:induction false} EscapeRoundTrip(key: string)
    ensures Unescape(Escape(key)) == Some(key)
    ensures '/' !in Escape(key)
  {
    if key != "" {
      EscapeCons(key);
      EscapeRoundTrip(key[1..]);
      var head, tail := EscapeChar(key[0]), Escape(key[1..]);
      assert (head + tail)[|head|..] == tail;
      assert key == [key[0]] + key[1..];
    }
  }

  lemma {:induction false} UnescapeIsOnlyInverse(token: string)
    requires Unescape(token).Some?
    ensures Escape(Unescape(token).value) == token
    decreases |token|
  {
    if token != "" {
      var n := if token[0] == '~' then 2 else 1;
      UnescapeIsOnlyInverse(token[n..]);
      var key := Unescape(token).value;
      EscapeCons(key);
      assert key[1..] == Unescape(token[n..]).value;
      assert token == EscapeChar(key[0]) + token[n..];
    }
  }

  function ReplacePair(s: string, c: char, d: char, r: char): string {
    if s == "" then ""
    else if |s| >= 2 && s[0] == c && s[1] == d then [r] + ReplacePair(s[2..], c, d, r)
    else [s[0]] + ReplacePair(s[1..], c, d, r)
  }

  /** Section 4 of RFC 6901 decodes in two passes, `~1` first; on every token this is
      the one-pass reading. */
  lemma {:induction false} UnescapeIsTwoPasses(token: string)
    requires Unescape(token).Some?
    ensures ReplacePair(ReplacePair(token, '~', '1', '/'), '~', '0', '~') == Unescape(token).value
    decreases |token|
  {
    if token != "" {
      var n := if token[0] == '~' then 2 else 1;
      UnescapeIsTwoPasses(token[n..]);
      var tail := ReplacePair(token[n..], '~', '1', '/');
      FirstPass(token);
      if token[0] != '~' {
        assert ([token[0]] + tail)[1..] == tail;
      } else if token[1] == '1' {
        assert (['/'] + tail)[1..] == tail;
      } else {
        assert (['~', '0'] + tail)[2..] == tail;
      }
    }
  }

  /** What the first pass does with one escape or one other character. */
  lemma FirstPass(token: string)
    requires token != "" && Unescape(token).Some?
    ensures var n := if token[0] == '~' then 2 else 1;
            ReplacePair(token, '~', '1', '/')
            == (if token[0] != '~' then [token[0]] else if token[1] == '1' then "/" else "~0")
               + ReplacePair(token[n..], '~', '1', '/')
  {
    if token[0] == '~' && token[1] == '0' {
      assert token[1..][1..] == token[2..];
      assert ReplacePair(token[1..], '~', '1', '/') == ['0'] + ReplacePair(token[2..], '~', '1', '/');
    }
  }

  // ---- Evaluation ----

  /** An array index token: zero, or digits that do not start with zero. */
  predicate IsIndex(token: string) {
    token != "" && AllDigits(token) && (token == "0" || token[0] != '0')
  }

  function Step(v: Json, token: string): Option<Json> {
    match v
    case Obj(members) =>
      (match Unescape(token)
       case None => None
       case Some(key) => Lookup(members, key))
    case Arr(items) =>
      if IsIndex(token) && Value(token) < |items| then Some(items[Value(token)]) else None
    case _ => None
  }

  /** The value a pointer leads to: the empty pointer is the whole value, and every
      reference token follows a slash. */
  function Evaluate(v: Json, pointer: string): Option<Json>
    decreases |pointer|
  {
    if pointer == "" then Some(v)
    else if pointer[0] != '/' then None
    else
      var n := IndexOf(pointer[1..], '/');
      match Step(v, pointer[1..n + 1])
      case None => None
      case Some(child) => Evaluate(child, pointer[n + 1..])
  }

  ghost predicate PointsToLeaf(v: Json, pointer: string) {
    Evaluate(v, pointer).Some? && IsLeaf(Evaluate(v, pointer).value)
  }

  /** A pointer below an element starts with that element's token. */
  lemma EvaluateStep(v: Json, token: string, rest: string)
    requires '/' !in token && (rest == "" || rest[0] == '/')
    ensures Evaluate(v, ['/'] + token + rest)
            == match Step(v, token)
               case None => None
               case Some(child) => Evaluate(child, rest)
  {
    var pointer := ['/'] + token + rest;
    assert pointer[1..] == token + rest;
    if rest == "" {
      assert token + rest == token;
    } else {
      assert token + rest == token + ['/'] + rest[1..];
      IndexOfAfter(token, '/', rest[1..]);
    }
    assert pointer[1..|token| + 1] == token && pointer[|token| + 1..] == rest;
  }
}
