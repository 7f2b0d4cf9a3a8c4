/**
 JSON documents and the `add` operation of JSON Patch: section 4.1 of RFC 6902, with the pointers of
 sections 3 and 4 of RFC 6901.
 */
module JsonPatch {
  import opened Options
  import opened Strings

  datatype Json =
    | Null
    | Bool(b: bool)
    | Num(n: int)
    | Str(s: string)
    | Arr(items: seq<Json>)
    | Obj(members: map<string, Json>)

  datatype Patch = Add(path: string, value: Json)

  datatype Failure = MalformedPointer | NoSuchLocation

  // ----- pointers -----

  /** `~1` stands for `/` and `~0` for `~`. */
  function Unescaped(token: string): string {
    if |token| < 2 then token
    else if token[..2] == "~1" then "/" + Unescaped(token[2..])
    else if token[..2] == "~0" then "~" + Unescaped(token[2..])
    else [token[0]] + Unescaped(token[1..])
  }

  function UnescapedAll(tokens: seq<string>): seq<string> {
    if tokens == [] then [] else [Unescaped(tokens[0])] + UnescapedAll(tokens[1..])
  }

  function ParsePointer(path: string): Result<seq<string>, Failure> {
    if path == "" then Ok([])
    else if path[0] != '/' then Err(MalformedPointer)
    else
      Ok(UnescapedAll(Split(path[1..], '/')))
  }

  /** The pointer that names the tokens, if none needs escaping. */
  function Pointer(tokens: seq<string>): string {
    if tokens == [] then "" else "/" + tokens[0] + Pointer(tokens[1..])
  }

  lemma {:induction false} PointerConcat(a: seq<string>, b: seq<string>)
    ensures Pointer(a + b) == Pointer(a) + Pointer(b)
  {
    if a == [] {
      assert a + b == b;
    } else {
      assert (a + b)[1..] == a[1..] + b;
      PointerConcat(a[1..], b);
    }
  }

  lemma PointerOf4(a: string, b: string, c: string, d: string)
    ensures Pointer([a, b]) == "/" + a + "/" + b
    ensures Pointer([a, b, c]) == "/" + a + "/" + b + "/" + c
    ensures Pointer([a, b, c, d]) == "/" + a + "/" + b + "/" + c + "/" + d
  {
    assert forall t: string :: Pointer([t]) == "/" + t;
    assert [a, b] == [a] + [b] && [a, b, c] == [a, b] + [c] && [a, b, c, d] == [a, b, c] + [d];
    PointerConcat([a], [b]);
    PointerConcat([a, b], [c]);
    PointerConcat([a, b, c], [d]);
  }

  predicate Plain(token: string) {
    '/' !in token && '~' !in token
  }

  lemma {:induction false} UnescapedPlain(token: string)
    requires '~' !in token
    ensures Unescaped(token) == token
  {
    if |token| < 2 {
    } else {
      assert token[..2][0] == token[0];
      UnescapedPlain(token[1..]);
      assert [token[0]] + token[1..] == token;
    }
  }

  lemma {:induction false} SplitPointer(tokens: seq<string>)
    requires tokens != [] && forall t :: t in tokens ==> '/' !in t
    ensures Pointer(tokens) != "" && Split(Pointer(tokens)[1..], '/') == tokens
  {
    var rest := Pointer(tokens[1..]);
    assert Pointer(tokens)[1..] == tokens[0] + rest;
    assert tokens[0] in tokens;
    if |tokens| == 1 {
      assert tokens[0] + rest == tokens[0];
      SplitWithout(tokens[0], '/');
      assert tokens == [tokens[0]];
    } else {
      SplitPointer(tokens[1..]);
      assert rest == ['/'] + rest[1..];
      assert tokens[0] + rest == tokens[0] + ['/'] + rest[1..];
      SplitAfter(tokens[0], '/', rest[1..]);
      assert tokens == [tokens[0]] + tokens[1..];
    }
  }

  lemma {:induction false} UnescapedAllPlain(tokens: seq<string>)
    requires forall t :: t in tokens ==> Plain(t)
    ensures UnescapedAll(tokens) == tokens
  {
    if tokens == [] {
    } else {
      assert Plain(tokens[0]);
      UnescapedPlain(tokens[0]);
      UnescapedAllPlain(tokens[1..]);
    }
  }

  lemma ParsePlainPointer(tokens: seq<string>)
    requires forall t :: t in tokens ==> Plain(t)
    ensures ParsePointer(Pointer(tokens)) == Ok(tokens)
  {
    if tokens != [] {
      assert forall t :: t in tokens ==> Plain(t);
      SplitPointer(tokens);
      UnescapedAllPlain(tokens);
    }
  }

  /** How a token is spelled in a pointer (section 3 of RFC 6901). */
  function Escaped(token: string): string {
    if token == "" then ""
    else (if token[0] == '~' then "~0" else if token[0] == '/' then "~1" else [token[0]]) + Escaped(token[1..])
  }

  lemma {:induction false} EscapedHasNoSlash(token: string)
    ensures '/' !in Escaped(token)
  {
    if token == "" {
    } else {
      EscapedHasNoSlash(token[1..]);
    }
  }

  lemma UnescapedCons(c: char, rest: string)
    ensures c != '~' ==> Unescaped([c] + rest) == [c] + Unescaped(rest)
    ensures Unescaped("~0" + rest) == "~" + Unescaped(rest) && Unescaped("~1" + rest) == "/" + Unescaped(rest)
  {
    assert ([c] + rest)[1..] == rest && (rest != "" ==> ([c] + rest)[..2][0] == c);
    assert ("~0" + rest)[..2] == "~0" && ("~0" + rest)[2..] == rest;
    assert ("~1" + rest)[..2] == "~1" && ("~1" + rest)[2..] == rest;
  }

  lemma {:induction false} UnescapedEscaped(token: string)
    ensures Unescaped(Escaped(token)) == token
  {
    if token == "" {
    } else {
      UnescapedEscaped(token[1..]);
      UnescapedCons(token[0], Escaped(token[1..]));
      assert token == [token[0]] + token[1..];
    }
  }

  function EscapedAll(tokens: seq<string>): (r: seq<string>)
    ensures |r| == |tokens|
  {
    if tokens == [] then [] else [Escaped(tokens[0])] + EscapedAll(tokens[1..])
  }

  lemma {:induction false} UnescapedAllEscaped(tokens: seq<string>)
    ensures UnescapedAll(EscapedAll(tokens)) == tokens
    ensures forall t :: t in EscapedAll(tokens) ==> '/' !in t
  {
    if tokens == [] {
    } else {
      UnescapedEscaped(tokens[0]);
      EscapedHasNoSlash(tokens[0]);
      UnescapedAllEscaped(tokens[1..]);
      assert EscapedAll(tokens)[1..] == EscapedAll(tokens[1..]);
    }
  }

  /** Any tokens survive being spelled as a pointer and parsed again. */
  lemma ParseEscapedPointer(tokens: seq<string>)
    ensures ParsePointer(Pointer(EscapedAll(tokens))) == Ok(tokens)
  {
    if tokens != [] {
      UnescapedAllEscaped(tokens);
      SplitPointer(EscapedAll(tokens));
    }
  }

  /** An array index: decimal digits without a leading zero. */
  predicate IsIndex(token: string) {
    token != "" && AllDigits(token) && (token[0] == '0' ==> token == "0")
  }

  // ----- add -----

  function Place(parent: Json, token: string, value: Json): Result<Json, Failure> {
    match parent
    case Obj(members) => Ok(Obj(members[token := value]))
    case Arr(items) =>
      if token == "-" then Ok(Arr(items + [value]))
      else if IsIndex(token) && Number(token) <= |items| then
        Ok(Arr(items[..Number(token)] + [value] + items[Number(token)..]))
      else Err(NoSuchLocation)
    case _ => Err(NoSuchLocation)
  }

  function AddAt(doc: Json, tokens: seq<string>, value: Json): Result<Json, Failure>
    decreases |tokens|
  {
    if tokens == [] then Ok(value)
    else if |tokens| == 1 then Place(doc, tokens[0], value)
    else if doc.Obj? && tokens[0] in doc.members then
      var sub := AddAt(doc.members[tokens[0]], tokens[1..], value);
      if sub.Ok? then Ok(Obj(doc.members[tokens[0] := sub.value])) else sub
    else if doc.Arr? && IsIndex(tokens[0]) && Number(tokens[0]) < |doc.items| then
      var sub := AddAt(doc.items[Number(tokens[0])], tokens[1..], value);
      if sub.Ok? then Ok(Arr(doc.items[Number(tokens[0]) := sub.value])) else sub
    else Err(NoSuchLocation)
  }

  function Apply(doc: Json, patch: Patch): Result<Json, Failure> {
    var tokens := ParsePointer(patch.path);
    if tokens.Ok? then AddAt(doc, tokens.value, patch.value) else Err(tokens.error)
  }

  /** The patches in order; the first failure aborts (section 5 of RFC 6902). */
  function ApplyAll(doc: Json, patches: seq<Patch>): Result<Json, Failure>
    decreases |patches|
  {
    if patches == [] then Ok(doc)
    else
      var next := Apply(doc, patches[0]);
      if next.Ok? then ApplyAll(next.value, patches[1..]) else next
  }

  lemma {:induction false} ApplyAllConcat(doc: Json, p: seq<Patch>, q: seq<Patch>)
    ensures var mid := ApplyAll(doc, p);
            ApplyAll(doc, p + q) == if mid.Ok? then ApplyAll(mid.value, q) else mid
    decreases |p|
  {
    if p == [] {
      assert p + q == q;
    } else {
      assert (p + q)[1..] == p[1..] + q;
      var next := Apply(doc, p[0]);
      if next.Ok? {
        ApplyAllConcat(next.value, p[1..], q);
      }
    }
  }

  // ----- reading as JavaScript does -----

  /** lodash's `isEmpty`, where a missing property is `undefined`. */
  predicate IsEmpty(v: Option<Json>) {
    match v
    case None => true
    case Some(Str(s)) => s == ""
    case Some(Arr(items)) => items == []
    case Some(Obj(members)) => members == map[]
    case Some(_) => true
  }

  /** `v == null`: the property is missing, `undefined` or null. */
  predicate IsNull(v: Option<Json>) {
    v.None? || v.value.Null?
  }

  predicate Truthy(v: Option<Json>) {
    match v
    case None => false
    case Some(Null) => false
    case Some(Bool(b)) => b
    case Some(Num(n)) => n != 0
    case Some(Str(s)) => s != ""
    case Some(_) => true
  }

  // ----- reading and replacing along members -----

  /** Optional chaining: the member of an object, nothing for any other value. */
  function Member(doc: Option<Json>, key: string): Option<Json> {
    if doc.Some? && doc.value.Obj? && key in doc.value.members then Some(doc.value.members[key]) else None
  }

  function At(doc: Json, keys: seq<string>): Option<Json> {
    if keys == [] then Some(doc)
    else if doc.Obj? && keys[0] in doc.members then At(doc.members[keys[0]], keys[1..])
    else None
  }

  /** The document with one location along members replaced and everything else as it was. */
  function With(doc: Json, keys: seq<string>, value: Json): Json
    requires At(doc, keys).Some?
  {
    if keys == [] then value
    else Obj(doc.members[keys[0] := With(doc.members[keys[0]], keys[1..], value)])
  }

  lemma {:induction false} WithAgain(doc: Json, keys: seq<string>, v: Json, w: Json)
    requires At(doc, keys).Some?
    ensures At(With(doc, keys, v), keys) == Some(v)
    ensures With(With(doc, keys, v), keys, w) == With(doc, keys, w)
    ensures With(doc, keys, At(doc, keys).value) == doc
  {
    if keys == [] {
    } else {
      WithAgain(doc.members[keys[0]], keys[1..], v, w);
    }
  }

  /** Adding below an existing location changes that location and nothing else. */
  lemma {:induction false} AddBelow(doc: Json, keys: seq<string>, rest: seq<string>, value: Json)
    requires At(doc, keys).Some? && rest != []
    ensures var sub := AddAt(At(doc, keys).value, rest, value);
            AddAt(doc, keys + rest, value) == if sub.Ok? then Ok(With(doc, keys, sub.value)) else sub
  {
    if keys == [] {
      assert keys + rest == rest;
    } else {
      assert (keys + rest)[1..] == keys[1..] + rest;
      AddBelow(doc.members[keys[0]], keys[1..], rest, value);
    }
  }

  /** Adding below a location that is missing or no container fails. */
  lemma {:induction false} AddNowhere(doc: Json, keys: seq<string>, rest: seq<string>, value: Json)
    requires forall k :: k in keys ==> !IsIndex(k)
    requires At(doc, keys).None? && rest != []
    ensures AddAt(doc, keys + rest, value) == Err(NoSuchLocation)
  {
    assert keys[0] in keys;
    assert (keys + rest)[1..] == keys[1..] + rest;
    if !doc.Obj? || keys[0] !in doc.members {
    } else {
      AddNowhere(doc.members[keys[0]], keys[1..], rest, value);
    }
  }

  lemma ApplyPlain(doc: Json, tokens: seq<string>, value: Json)
    requires forall t :: t in tokens ==> Plain(t)
    ensures Apply(doc, Add(Pointer(tokens), value)) == AddAt(doc, tokens, value)
  {
    ParsePlainPointer(tokens);
  }

  /** Adding a member to an object that is there. */
  lemma AddMember(doc: Json, keys: seq<string>, key: string, value: Json)
    requires At(doc, keys).Some? && At(doc, keys).value.Obj?
    ensures AddAt(doc, keys + [key], value) == Ok(With(doc, keys, Obj(At(doc, keys).value.members[key := value])))
  {
    AddBelow(doc, keys, [key], value);
  }

  /** Adding a member where the parent is missing or null. */
  lemma AddMemberNowhere(doc: Json, keys: seq<string>, key: string, value: Json)
    requires forall k :: k in keys ==> !IsIndex(k)
    requires IsNull(At(doc, keys))
    ensures AddAt(doc, keys + [key], value) == Err(NoSuchLocation)
  {
    if At(doc, keys).None? {
      AddNowhere(doc, keys, [key], value);
    } else {
      AddBelow(doc, keys, [key], value);
    }
  }

  // ----- what `add` does, case by case -----

  lemma DecimalIsPlain(i: nat)
    ensures Plain(Decimal(i)) && IsIndex(Decimal(i)) && Decimal(i) != "-" && Number(Decimal(i)) == i
  {
    NumberOfDecimal(i);
    assert !IsDigit('/') && !IsDigit('~');
  }

  /** Into an object: the member is set, whether it was there or not. */
  lemma AddToObject(members: map<string, Json>, key: string, value: Json)
    ensures AddAt(Obj(members), [key], value) == Ok(Obj(members[key := value]))
  {
  }

  /** Into an array: in front of the element at the index, or behind the last one; an index beyond
      that, and anything else, is an error. */
  lemma AddToArray(items: seq<Json>, token: string, i: nat, value: Json)
    ensures AddAt(Arr(items), [Decimal(i)], value)
         == if i <= |items| then Ok(Arr(items[..i] + [value] + items[i..])) else Err(NoSuchLocation)
    ensures AddAt(Arr(items), ["-"], value) == Ok(Arr(items + [value]))
    ensures token != "-" && (token == "" || !AllDigits(token) || (token[0] == '0' && token != "0")) ==>
              AddAt(Arr(items), [token], value) == Err(NoSuchLocation)
  {
    DecimalIsPlain(i);
  }

  /** At the root the document is replaced; below a missing parent nothing can be added. */
  lemma AddElsewhere(doc: Json, key: string, rest: seq<string>, value: Json)
    ensures AddAt(doc, [], value) == Ok(value)
    ensures rest != [] && doc.Obj? && key !in doc.members ==> AddAt(doc, [key] + rest, value) == Err(NoSuchLocation)
    ensures !doc.Obj? && !doc.Arr? ==> AddAt(doc, [key] + rest, value) == Err(NoSuchLocation)
  {
    assert ([key] + rest)[1..] == rest;
  }

  /** Below a member or an element: that one is changed, and nothing else; or the same error arises. */
  lemma AddDeeper(members: map<string, Json>, items: seq<Json>, key: string, i: nat, rest: seq<string>, value: Json)
    requires rest != []
    ensures key in members ==>
              var sub := AddAt(members[key], rest, value);
              AddAt(Obj(members), [key] + rest, value)
              == if sub.Ok? then Ok(Obj(members[key := sub.value])) else Err(sub.error)
    ensures i < |items| ==>
              var sub := AddAt(items[i], rest, value);
              AddAt(Arr(items), [Decimal(i)] + rest, value)
              == if sub.Ok? then Ok(Arr(items[i := sub.value])) else Err(sub.error)
  {
    DecimalIsPlain(i);
    assert ([key] + rest)[1..] == rest && ([Decimal(i)] + rest)[1..] == rest;
  }

  // ----- locations that a change does not touch -----

  /** The two paths part at some key. */
  ghost predicate Diverge(p: seq<string>, q: seq<string>) {
    exists i :: 0 <= i < |p| && i < |q| && p[..i] == q[..i] && p[i] != q[i]
  }

  lemma DivergeLater(p: seq<string>, q: seq<string>)
    requires Diverge(p, q) && p[0] == q[0]
    ensures Diverge(p[1..], q[1..])
  {
    var i :| 0 <= i < |p| && i < |q| && p[..i] == q[..i] && p[i] != q[i];
    assert p[1..][..i - 1] == p[..i][1..] && q[1..][..i - 1] == q[..i][1..];
    assert p[1..][i - 1] == p[i] && q[1..][i - 1] == q[i];
  }

  lemma AtFirst(v: Option<Json>, keys: seq<string>)
    requires keys != []
    ensures (if v.Some? then At(v.value, keys) else None)
         == if Member(v, keys[0]).Some? then At(Member(v, keys[0]).value, keys[1..]) else None
  {
  }

  lemma AtFour(doc: Json, a: string, b: string, c: string, d: string)
    ensures At(doc, [a, b, c, d]) == Member(Member(Member(Member(Some(doc), a), b), c), d)
    ensures At(doc, [a, b, c]) == Member(Member(Member(Some(doc), a), b), c)
  {
    var one, two, three := [d], [c, d], [b, c, d];
    assert [a, b, c, d][1..] == three && three[1..] == two && two[1..] == one && one[1..] == [];
    assert [a, b, c][1..] == [b, c] && [b, c][1..] == [c] && [c][1..] == [];
    var v := Some(doc);
    AtFirst(v, [a, b, c, d]);
    AtFirst(v, [a, b, c]);
    AtFirst(Member(v, a), three);
    AtFirst(Member(v, a), [b, c]);
    AtFirst(Member(Member(v, a), b), two);
    AtFirst(Member(Member(v, a), b), [c]);
    AtFirst(Member(Member(Member(v, a), b), c), one);
  }

  lemma {:induction false} WithElsewhere(doc: Json, keys: seq<string>, value: Json, other: seq<string>)
    requires At(doc, keys).Some? && Diverge(other, keys)
    ensures At(With(doc, keys, value), other) == At(doc, other)
  {
    if other[0] == keys[0] {
      DivergeLater(other, keys);
      WithElsewhere(doc.members[keys[0]], keys[1..], value, other[1..]);
    }
  }
}
