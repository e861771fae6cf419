/** The append-only, hash-chained ledger: appending a record, and verifying the chain. */
module BlindLedger {
  import opened Options

  const GENESIS := "GENESIS"
  const PREV := "prev_hash"
  const HASH := "record_hash"

  datatype Json = Text(text: string) | Number(n: int) | Null

  type Record = map<string, Json>

  /** Canonical JSON and SHA-256, as far as the chain relies on them. */
  datatype Codec = Codec(encode: Record -> string, hash: string -> string) {
    ghost predicate Valid() {
      && (forall a, b :: encode(a) == encode(b) ==> a == b)
      && (forall a :: |encode(a)| > 0 && encode(a)[0] == '{')
      && (forall a, b :: hash(a) == hash(b) ==> a == b)
      && (forall a :: '{' !in hash(a) && hash(a) != GENESIS)
    }
  }

  /** The record without its own hash, which is what the hash covers. */
  function Body(r: Record): Record {
    r - {HASH}
  }

  function HashOf(c: Codec, prev: string, body: Record): string {
    c.hash(prev + c.encode(body))
  }

  /** The hash a following record must name. */
  function LastHash(ledger: seq<Record>): Json {
    if |ledger| == 0 then Text(GENESIS)
    else if HASH in ledger[|ledger| - 1] then ledger[|ledger| - 1][HASH]
    else Null
  }

  /** The record names the previous hash and carries the hash of its own body. */
  predicate Linked(c: Codec, prev: Json, r: Record) {
    && prev.Text? && HASH in r
    && PREV in Body(r) && Body(r)[PREV] == prev
    && r[HASH] == Text(HashOf(c, prev.text, Body(r)))
  }

  predicate ValidChain(c: Codec, ledger: seq<Record>) {
    |ledger| == 0 ||
    (ValidChain(c, ledger[..|ledger| - 1]) && Linked(c, LastHash(ledger[..|ledger| - 1]), ledger[|ledger| - 1]))
  }

  /** What verification reports; a record without a hash field raises instead. */
  datatype Verdict = Verdict(ok: bool, n: nat) | Raised(n: nat)

  lemma {:induction false} PrefixValid(c: Codec, ledger: seq<Record>, k: nat)
    requires k <= |ledger| && ValidChain(c, ledger)
    ensures ValidChain(c, ledger[..k])
  {
    if k == |ledger| {
      assert ledger[..k] == ledger;
    } else {
      assert ledger[..|ledger| - 1][..k] == ledger[..k];
      PrefixValid(c, ledger[..|ledger| - 1], k);
    }
  }

  lemma LinkedOf(c: Codec, prev: Json, r: Record)
    requires prev.Text?
    ensures Linked(c, prev, r) <==>
      HASH in r && PREV in Body(r) && Body(r)[PREV] == prev && r[HASH] == Text(HashOf(c, prev.text, Body(r)))
  {
  }

  /** Walk the records from the start; stop at the first one that does not link. */
  method VerifyChain(c: Codec, file: Option<seq<Record>>) returns (v: Verdict)
    requires c.Valid()
    ensures file.None? ==> v == Verdict(true, 0)
    ensures file.Some? ==>
      && v.n <= |file.value|
      && ValidChain(c, file.value[..v.n])
      && (v.n < |file.value| ==> !ValidChain(c, file.value[..v.n + 1]))
      && (v.Verdict? ==> (v.ok <==> ValidChain(c, file.value)) && (v.ok <==> v.n == |file.value|))
      && (v.Raised? <==> v.n < |file.value| && HASH !in file.value[v.n])
  {
    if file.None? {
      return Verdict(true, 0);
    }
    hide Linked, HashOf;
    var ledger := file.value;
    var prev := GENESIS;
    var n := 0;
    while n < |ledger|
      invariant 0 <= n <= |ledger|
      invariant ValidChain(c, ledger[..n])
      invariant LastHash(ledger[..n]) == Text(prev)
    {
      var rec := ledger[n];
      assert ledger[..n + 1][..n] == ledger[..n];
      LinkedOf(c, Text(prev), rec);
      if HASH !in rec {
        return Raised(n);
      }
      var claimed, body := rec[HASH], Body(rec);
      if PREV !in body || body[PREV] != Text(prev) || Text(HashOf(c, prev, body)) != claimed {
        BrokenFromHere(c, ledger, n);
        return Verdict(false, n);
      }
      prev, n := claimed.text, n + 1;
    }
    assert ledger[..n] == ledger;
    return Verdict(true, n);
  }

  lemma BrokenFromHere(c: Codec, ledger: seq<Record>, n: nat)
    requires n < |ledger| && !ValidChain(c, ledger[..n + 1])
    ensures !ValidChain(c, ledger)
  {
    if ValidChain(c, ledger) {
      PrefixValid(c, ledger, n + 1);
    }
  }

  // ----- appending

  /** The two keys ledger_append writes into the record. */
  function Sealed(c: Codec, prev: string, record: Record): Record {
    var named := record[PREV := Text(prev)];
    named[HASH := Text(c.hash(prev + c.encode(named)))]
  }

  class Ledger {
    var lines: seq<Record>

    constructor ()
      ensures lines == []
    {
      lines := [];
    }

    /**
     * Append the record after the last line; the caller's record is updated too. Raises if the last line has no
     * hash.
     */
    method Append(c: Codec, record: Record) returns (updated: Option<Record>)
      modifies this
      ensures updated == if LastHash(old(lines)).Text? then Some(Sealed(c, LastHash(old(lines)).text, record)) else None
      ensures lines == if updated.Some? then old(lines) + [updated.value] else old(lines)
    {
      var prev := Text(GENESIS);
      if |lines| > 0 {
        if HASH !in lines[|lines| - 1] {
          return None;
        }
        prev := lines[|lines| - 1][HASH];
      }
      if !prev.Text? {
        return None;
      }
      var named := record[PREV := prev];
      var payload := c.encode(named);
      var stamped := named[HASH := Text(c.hash(prev.text + payload))];
      lines := lines + [stamped];
      updated := Some(stamped);
    }
  }

  // ----- what the chain proves

  lemma BraceAt(p: string, e: string, s: string)
    requires '{' !in p && |e| > 0 && e[0] == '{' && s == p + e
    ensures |p| < |s| && s[|p|] == '{' && forall i :: 0 <= i < |p| ==> s[i] != '{'
  {
    forall i | 0 <= i < |p|
      ensures s[i] == p[i] && p[i] in p
    {
    }
  }

  /** A hash has no brace and a payload starts with one, so their concatenation splits in one way only. */
  lemma SplitAtBrace(p: string, e: string, p': string, e': string)
    requires '{' !in p && '{' !in p' && |e| > 0 && e[0] == '{' && |e'| > 0 && e'[0] == '{'
    requires p + e == p' + e'
    ensures p == p' && e == e'
  {
    var s := p + e;
    BraceAt(p, e, s);
    BraceAt(p', e', s);
    assert |p| == |p'|;
    assert p == s[..|p|] && p' == s[..|p'|] && e == s[|p|..] && e' == s[|p'|..];
  }

  /** A valid chain's last hash is free of braces, so it can be told apart from the payload after it. */
  lemma LastHashPlain(c: Codec, ledger: seq<Record>)
    requires c.Valid() && ValidChain(c, ledger)
    ensures LastHash(ledger).Text? && '{' !in LastHash(ledger).text
    ensures LastHash(ledger) == Text(GENESIS) <==> ledger == []
  {
    assert '{' !in GENESIS;
  }

  /**
   * Two ledgers that both verify and end in the same hash are the same ledger: any edit, deletion or reorder is
   * caught.
   */
  lemma {:induction false} SameLastHashSameLedger(c: Codec, a: seq<Record>, b: seq<Record>)
    requires c.Valid() && ValidChain(c, a) && ValidChain(c, b)
    requires LastHash(a) == LastHash(b)
    ensures a == b
  {
    LastHashPlain(c, a);
    LastHashPlain(c, b);
    if |a| != 0 && |b| != 0 {
      var fa, fb, x, y := a[..|a| - 1], b[..|b| - 1], a[|a| - 1], b[|b| - 1];
      LastHashPlain(c, fa);
      LastHashPlain(c, fb);
      var p, q := LastHash(fa).text, LastHash(fb).text;
      assert c.hash(p + c.encode(Body(x))) == c.hash(q + c.encode(Body(y)));
      SplitAtBrace(p, c.encode(Body(x)), q, c.encode(Body(y)));
      SameLastHashSameLedger(c, fa, fb);
      assert Body(x) == Body(y);
      assert x == Body(x)[HASH := x[HASH]] && y == Body(y)[HASH := y[HASH]];
      assert a == fa + [x] && b == fb + [y];
    }
  }

  lemma ChainAppend(c: Codec, ledger: seq<Record>, r: Record)
    ensures ValidChain(c, ledger + [r]) <==> ValidChain(c, ledger) && Linked(c, LastHash(ledger), r)
  {
    hide Linked;
    assert (ledger + [r])[..|ledger|] == ledger;
  }

  /** Appending to a valid chain gives a valid chain if and only if the record carried no hash field of its own. */
  lemma AppendValidIff(c: Codec, ledger: seq<Record>, record: Record)
    requires c.Valid() && ValidChain(c, ledger)
    ensures LastHash(ledger).Text?
    ensures ValidChain(c, ledger + [Sealed(c, LastHash(ledger).text, record)]) <==> HASH !in record
  {
    hide Sealed, Linked, ValidChain, LastHash;
    LastHashPlain(c, ledger);
    var prev := LastHash(ledger).text;
    ChainAppend(c, ledger, Sealed(c, prev, record));
    SealedLinkedIff(c, prev, record);
  }

  lemma SealedLinkedIff(c: Codec, prev: string, record: Record)
    requires c.Valid() && '{' !in prev
    ensures Linked(c, Text(prev), Sealed(c, prev, record)) <==> HASH !in record
  {
    var named := record[PREV := Text(prev)];
    var r := Sealed(c, prev, record);
    if HASH !in record {
      assert Body(r) == named;
    } else {
      assert HASH in named && HASH !in Body(r);
      if Linked(c, Text(prev), r) {
        SplitAtBrace(prev, c.encode(Body(r)), prev, c.encode(named));
      }
    }
  }

  /** A record object that was appended once carries its hash, so appending the same object again breaks the chain. */
  lemma AppendingSameObjectTwiceBreaks(c: Codec, ledger: seq<Record>, record: Record)
    requires c.Valid() && ValidChain(c, ledger) && HASH !in record
    ensures LastHash(ledger).Text?
    ensures
      var once := Sealed(c, LastHash(ledger).text, record);
      && LastHash(ledger + [once]).Text?
      && !ValidChain(c, ledger + [once] + [Sealed(c, LastHash(ledger + [once]).text, once)])
  {
    AppendValidIff(c, ledger, record);
    AppendValidIff(c, ledger + [Sealed(c, LastHash(ledger).text, record)], Sealed(c, LastHash(ledger).text, record));
  }

  /** A broken chain stays broken at the same place, whatever is appended. */
  lemma {:induction false} AppendNeverHeals(c: Codec, ledger: seq<Record>, more: seq<Record>, n: nat)
    requires n < |ledger| && ValidChain(c, ledger[..n]) && !ValidChain(c, ledger[..n + 1])
    ensures !ValidChain(c, ledger + more)
    ensures ValidChain(c, (ledger + more)[..n]) && !ValidChain(c, (ledger + more)[..n + 1])
  {
    assert (ledger + more)[..n] == ledger[..n] && (ledger + more)[..n + 1] == ledger[..n + 1];
    BrokenFromHere(c, ledger + more, n);
  }

  function AppendAll(c: Codec, ledger: seq<Record>, records: seq<Record>): seq<Record> {
    if |records| == 0 then ledger
    else
      var before := AppendAll(c, ledger, records[..|records| - 1]);
      if LastHash(before).Text? then before + [Sealed(c, LastHash(before).text, records[|records| - 1])] else before
  }

  /** Any number of appends of plain records keeps a valid chain valid, and all the lines it had. */
  lemma {:induction false} AppendsStayValid(c: Codec, ledger: seq<Record>, records: seq<Record>)
    requires c.Valid() && ValidChain(c, ledger)
    requires forall i :: 0 <= i < |records| ==> HASH !in records[i]
    ensures ValidChain(c, AppendAll(c, ledger, records))
    ensures |AppendAll(c, ledger, records)| == |ledger| + |records|
    ensures ledger <= AppendAll(c, ledger, records)
  {
    if |records| != 0 {
      var front := records[..|records| - 1];
      AppendsStayValid(c, ledger, front);
      AppendValidIff(c, AppendAll(c, ledger, front), records[|records| - 1]);
    }
  }
}
