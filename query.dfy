/** The parsed query of a request as the ordered list of its own keys and values
    (the insertion order of the JavaScript object), the `delete` of a key from a copy
    of it, and `querystring.stringify` over it with the percent-encoder left abstract. */
module Query {
  import opened Prelude

  /** One query parameter: its key and its value. */
  type Param = (string, string)

  /** `query[k]`: the value of the first parameter named `k`, `undefined` when none is. */
  function Get(q: seq<Param>, k: string): (v: Option<string>)
    ensures v.None? <==> forall i :: 0 <= i < |q| ==> q[i].0 != k
    ensures v.Some? ==> exists i :: 0 <= i < |q| && q[i] == (k, v.value)
  {
    if q == [] then None
    else if q[0].0 == k then Some(q[0].1)
    else
      var v := Get(q[1..], k);
      assert forall i :: 1 <= i < |q| ==> q[i] == q[1..][i - 1];
      v
  }

  /** Reading a key of two lists of parameters put one after the other finds it in the
      first when it is there and in the second otherwise. */
  lemma {:induction false} GetAppend(q: seq<Param>, r: seq<Param>, k: string)
    ensures Get(q + r, k) == if Get(q, k).Some? then Get(q, k) else Get(r, k)
  {
    if q == [] {
      assert q + r == r;
    } else {
      assert (q + r)[0] == q[0];
      assert (q + r)[1..] == q[1..] + r;
      GetAppend(q[1..], r, k);
    }
  }

  /** `delete map[k]` on a copy: every parameter named `k` goes, the others stay in order. */
  function Delete(q: seq<Param>, k: string): (r: seq<Param>)
    ensures |r| <= |q|
    ensures forall p :: p in r <==> p in q && p.0 != k
  {
    if q == [] then []
    else if q[0].0 == k then Delete(q[1..], k)
    else [q[0]] + Delete(q[1..], k)
  }

  /** After the delete, `k` is undefined and every other key reads as before. */
  lemma {:induction false} GetAfterDelete(q: seq<Param>, k: string, k': string)
    ensures Get(Delete(q, k), k') == if k' == k then None else Get(q, k')
  {
    if q != [] {
      GetAfterDelete(q[1..], k, k');
    }
  }

  /** Deleting a key the query does not hold leaves it as it was. */
  lemma {:induction false} DeleteAbsent(q: seq<Param>, k: string)
    requires forall i :: 0 <= i < |q| ==> q[i].0 != k
    ensures Delete(q, k) == q
  {
    if q != [] {
      DeleteAbsent(q[1..], k);
    }
  }

  /** Deleting from a concatenation deletes from each part. */
  lemma {:induction false} DeleteAppend(a: seq<Param>, b: seq<Param>, k: string)
    ensures Delete(a + b, k) == Delete(a, k) + Delete(b, k)
  {
    if a == [] {
      assert a + b == b;
    } else {
      assert (a + b)[0] == a[0];
      assert (a + b)[1..] == a[1..] + b;
      DeleteAppend(a[1..], b, k);
      if a[0].0 != k {
        assert [a[0]] + (Delete(a[1..], k) + Delete(b, k))
            == ([a[0]] + Delete(a[1..], k)) + Delete(b, k);
      }
    }
  }

  /** One `key=value` field of the encoded string. */
  function Field(p: Param, escape: string -> string): string
  {
    escape(p.0) + "=" + escape(p.1)
  }

  /** `querystring.stringify`: the fields of the parameters, in order, joined by `&`.
      Every field holds an `=`, so only the empty query gives the empty string. */
  function Stringify(ps: seq<Param>, escape: string -> string): (r: string)
    ensures r == "" <==> ps == []
    ensures ps != [] ==> '=' in r
  {
    if ps == [] then ""
    else if |ps| == 1 then Field(ps[0], escape)
    else Field(ps[0], escape) + "&" + Stringify(ps[1..], escape)
  }

  /** The parameters with their keys and values passed through the encoder. */
  function Escaped(ps: seq<Param>, escape: string -> string): seq<Param>
  {
    seq(|ps|, i requires 0 <= i < |ps| => (escape(ps[i].0), escape(ps[i].1)))
  }

  /** The index of the first `c` in `s`, or `|s|` when there is none. */
  function IndexOf(s: string, c: char): (i: nat)
    ensures i <= |s|
    ensures i < |s| ==> s[i] == c
    ensures forall j :: 0 <= j < i ==> s[j] != c
  {
    if s == [] then 0
    else if s[0] == c then 0
    else 1 + IndexOf(s[1..], c)
  }

  /** The pieces of `s` between occurrences of `c`. */
  function Split(s: string, c: char): (r: seq<string>)
    ensures |r| >= 1
    decreases |s|
  {
    var i := IndexOf(s, c);
    if i == |s| then [s] else [s[..i]] + Split(s[i + 1..], c)
  }

  /** One field read back: the text before the first `=` and the text after it. */
  function ParseField(f: string): Param
  {
    var i := IndexOf(f, '=');
    if i == |f| then (f, "") else (f[..i], f[i + 1..])
  }

  /** `querystring.parse` without decoding: the reader a signer of the string would use. */
  function Parse(s: string): seq<Param>
  {
    if s == "" then []
    else
      var fields := Split(s, '&');
      seq(|fields|, i requires 0 <= i < |fields| => ParseField(fields[i]))
  }

  lemma IndexOfAt(a: string, c: char, b: string)
    requires c !in a
    ensures IndexOf(a + [c] + b, c) == |a|
  {
    var s := a + [c] + b;
    assert s[|a|] == c;
    assert forall j :: 0 <= j < |a| ==> s[j] == a[j];
  }

  lemma IndexOfNone(a: string, c: char)
    requires c !in a
    ensures IndexOf(a, c) == |a|
  {
  }

  lemma SplitField(f: string, rest: string)
    requires '&' !in f
    ensures Split(f + "&" + rest, '&') == [f] + Split(rest, '&')
  {
    var s := f + "&" + rest;
    IndexOfAt(f, '&', rest);
    assert s[..|f|] == f;
    assert s[|f| + 1..] == rest;
  }

  lemma ParseOneField(p: Param, escape: string -> string)
    requires '=' !in escape(p.0) && '=' !in escape(p.1)
    ensures ParseField(Field(p, escape)) == (escape(p.0), escape(p.1))
  {
    var k, v := escape(p.0), escape(p.1);
    var f := k + "=" + v;
    IndexOfAt(k, '=', v);
    assert f[..|k|] == k;
    assert f[|k| + 1..] == v;
  }

  /** The fields of the string, split at `&`, are exactly the encoded parameters. */
  lemma {:induction false} SplitStringify(ps: seq<Param>, escape: string -> string)
    requires ps != []
    requires forall s :: '&' !in escape(s)
    ensures var fields := Split(Stringify(ps, escape), '&');
      |fields| == |ps| && forall i :: 0 <= i < |ps| ==> fields[i] == Field(ps[i], escape)
  {
    var f := Field(ps[0], escape);
    assert '&' !in f by {
      assert f == escape(ps[0].0) + "=" + escape(ps[0].1);
    }
    if |ps| == 1 {
      IndexOfNone(f, '&');
    } else {
      SplitStringify(ps[1..], escape);
      SplitField(f, Stringify(ps[1..], escape));
    }
  }

  /** Round trip: when the encoder never produces `&` or `=`, reading the string back
      gives the encoded parameters, in order, with nothing added or lost. */
  lemma ParseStringify(ps: seq<Param>, escape: string -> string)
    requires forall s :: '&' !in escape(s) && '=' !in escape(s)
    ensures Parse(Stringify(ps, escape)) == Escaped(ps, escape)
  {
    if ps != [] {
      var s := Stringify(ps, escape);
      assert s != "" by {
        assert |Field(ps[0], escape)| > 0;
      }
      SplitStringify(ps, escape);
      forall i | 0 <= i < |ps|
        ensures Parse(s)[i] == Escaped(ps, escape)[i]
      {
        ParseOneField(ps[i], escape);
      }
    }
  }

  /** The encoded string is unambiguous: with an injective encoder that never produces
      `&` or `=`, two parameter lists are signed as the same string only when equal. */
  lemma StringifyInjective(ps: seq<Param>, qs: seq<Param>, escape: string -> string)
    requires forall s :: '&' !in escape(s) && '=' !in escape(s)
    requires forall a, b :: escape(a) == escape(b) ==> a == b
    requires Stringify(ps, escape) == Stringify(qs, escape)
    ensures ps == qs
  {
    ParseStringify(ps, escape);
    ParseStringify(qs, escape);
    var e, f := Escaped(ps, escape), Escaped(qs, escape);
    assert |ps| == |qs|;
    forall i | 0 <= i < |ps| ensures ps[i] == qs[i] {
      assert e[i] == f[i];
    }
  }
}
