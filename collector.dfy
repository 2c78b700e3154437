/**
 * Record collection (o365_ip.py, `get_ip_addresses`): the fetched records are
 * reduced to the addresses the inclusion policy admits, each kept once. The
 * source accumulates them as keys of a dict; a dict keeps the order in which
 * keys were first inserted, and assigning to an existing key does not move
 * it, so the set is modelled as a duplicate-free sequence in that order.
 */
module Collector {
  import opened Wrappers

  /** One fetched record: its `ips` field, if it has one, and its `required` flag. */
  datatype Record = Record(ips: Option<seq<string>>, required: bool)

  predicate NoDuplicates(s: seq<string>) {
    forall i, j :: 0 <= i < j < |s| ==> s[i] != s[j]
  }

  /** Whether the addresses of a record are admitted under the policy. */
  predicate Admits(r: Record, includeOptional: bool) {
    r.ips.Some? && (r.required || includeOptional)
  }

  /** The addresses a record offers to the collection. */
  function Offered(r: Record, includeOptional: bool): seq<string> {
    if Admits(r, includeOptional) then r.ips.value else []
  }

  /** Every admitted address, record after record, duplicates included. */
  function Stream(records: seq<Record>, includeOptional: bool): seq<string> {
    if records == [] then []
    else Stream(records[..|records| - 1], includeOptional) + Offered(records[|records| - 1], includeOptional)
  }

  /** Assigning to a dict key, seen through the keys: a new key goes last, an existing one stays put. */
  function Insert(keys: seq<string>, ip: string): seq<string> {
    if ip in keys then keys else keys + [ip]
  }

  /** Inserting every element of `s` in turn. */
  function InsertAll(keys: seq<string>, s: seq<string>): seq<string> {
    if s == [] then keys else Insert(InsertAll(keys, s[..|s| - 1]), s[|s| - 1])
  }

  /**
   * Inserting keeps the keys already present where they are, holds exactly
   * the old keys and the inserted ones, and never duplicates a key.
   */
  lemma {:induction false} InsertAllProperties(keys: seq<string>, s: seq<string>)
    ensures keys <= InsertAll(keys, s)
    ensures forall x :: x in InsertAll(keys, s) <==> x in keys || x in s
    ensures NoDuplicates(keys) ==> NoDuplicates(InsertAll(keys, s))
  {
    if s != [] {
      InsertAllProperties(keys, s[..|s| - 1]);
    }
  }

  /** The collected set: the keys of the dict `get_ip_addresses` returns. */
  function Collected(records: seq<Record>, includeOptional: bool): seq<string> {
    InsertAll([], Stream(records, includeOptional))
  }

  /** The position of the first occurrence of `x` in `s`. */
  function FirstIndex(s: seq<string>, x: string): (k: nat)
    requires x in s
    ensures k < |s| && s[k] == x && x !in s[..k]
  {
    if s[0] == x then 0 else 1 + FirstIndex(s[1..], x)
  }

  /** Inserting two runs one after the other is inserting their concatenation. */
  lemma {:induction false} InsertAllConcat(keys: seq<string>, s: seq<string>, t: seq<string>)
    ensures InsertAll(InsertAll(keys, s), t) == InsertAll(keys, s + t)
  {
    if t != [] {
      assert (s + t)[..|s + t| - 1] == s + t[..|t| - 1];
      InsertAllConcat(keys, s, t[..|t| - 1]);
    } else {
      assert s + t == s;
    }
  }

  /** An address is in the stream exactly when some record offering it is admitted. */
  lemma {:induction false} StreamMembership(records: seq<Record>, includeOptional: bool, ip: string)
    ensures ip in Stream(records, includeOptional) <==>
      exists k :: 0 <= k < |records| && Admits(records[k], includeOptional) && ip in records[k].ips.value
  {
    if records != [] {
      var init := records[..|records| - 1];
      StreamMembership(init, includeOptional, ip);
      assert forall k :: 0 <= k < |init| ==> init[k] == records[k];
    }
  }

  /**
   * Inclusion policy: an address is collected exactly when some record that
   * has an `ips` field lists it and is required or optional ones are wanted.
   */
  lemma CollectedMembership(records: seq<Record>, includeOptional: bool, ip: string)
    ensures ip in Collected(records, includeOptional) <==>
      exists k :: 0 <= k < |records| && records[k].ips.Some? &&
        (records[k].required || includeOptional) && ip in records[k].ips.value
  {
    InsertAllProperties([], Stream(records, includeOptional));
    StreamMembership(records, includeOptional, ip);
  }

  /** Each address appears once in the collected set. */
  lemma CollectedNoDuplicates(records: seq<Record>, includeOptional: bool)
    ensures NoDuplicates(Collected(records, includeOptional))
  {
    InsertAllProperties([], Stream(records, includeOptional));
  }

  /** Addresses are ordered by where they were first offered. */
  lemma {:induction false} FirstSeenOrder(s: seq<string>)
    ensures forall i, j :: 0 <= i < j < |InsertAll([], s)| ==>
      InsertAll([], s)[i] in s && InsertAll([], s)[j] in s &&
      FirstIndex(s, InsertAll([], s)[i]) < FirstIndex(s, InsertAll([], s)[j])
  {
    if s != [] {
      var init, x := s[..|s| - 1], s[|s| - 1];
      FirstSeenOrder(init);
      InsertAllProperties([], init);
      var before := InsertAll([], init);
      forall y | y in init
        ensures FirstIndex(s, y) == FirstIndex(init, y)
      {
        FirstIndexOfPrefix(init, [x], y);
        assert init + [x] == s;
      }
      var r := InsertAll([], s);
      if x in before {
        assert r == before;
      } else {
        assert r == before + [x];
        forall y | y in init
          ensures FirstIndex(s, y) < FirstIndex(s, x)
        {
          assert x !in init && s[..|init|] == init;
        }
      }
      forall i, j | 0 <= i < j < |r|
        ensures r[i] in s && r[j] in s && FirstIndex(s, r[i]) < FirstIndex(s, r[j])
      {
        assert r[i] == before[i] && before[i] in init;
        if j < |before| {
          assert r[j] == before[j] && before[j] in init;
          assert FirstIndex(init, before[i]) < FirstIndex(init, before[j]);
        } else {
          assert r[j] == x;
        }
      }
    } else {
      assert InsertAll([], s) == [];
    }
  }

  /** Appending to a sequence does not move the first occurrence of what it already holds. */
  lemma {:induction false} FirstIndexOfPrefix(s: seq<string>, t: seq<string>, y: string)
    requires y in s
    ensures FirstIndex(s + t, y) == FirstIndex(s, y)
  {
    if s[0] != y {
      assert (s + t)[1..] == s[1..] + t;
      FirstIndexOfPrefix(s[1..], t, y);
    }
  }

  /**
   * The collected set, ordered by first occurrence: an address keeps the
   * position where it was first seen, even when later records repeat it.
   */
  lemma CollectedFirstSeenOrder(records: seq<Record>, includeOptional: bool)
    ensures var ips, s := Collected(records, includeOptional), Stream(records, includeOptional);
      forall i, j :: 0 <= i < j < |ips| ==>
        ips[i] in s && ips[j] in s && FirstIndex(s, ips[i]) < FirstIndex(s, ips[j])
  {
    FirstSeenOrder(Stream(records, includeOptional));
  }

  /** One more record only appends the addresses not yet collected, in its own order. */
  lemma CollectedStep(records: seq<Record>, r: Record, includeOptional: bool)
    ensures Collected(records + [r], includeOptional) ==
      InsertAll(Collected(records, includeOptional), Offered(r, includeOptional))
    ensures Collected(records, includeOptional) <= Collected(records + [r], includeOptional)
  {
    assert (records + [r])[..|records|] == records;
    InsertAllConcat([], Stream(records, includeOptional), Offered(r, includeOptional));
    InsertAllProperties(Collected(records, includeOptional), Offered(r, includeOptional));
  }

  /** Turning optional addresses off never adds an address. */
  lemma RequiredOnlyIsSubset(records: seq<Record>, ip: string)
    ensures ip in Collected(records, false) ==> ip in Collected(records, true)
  {
    CollectedMembership(records, false, ip);
    CollectedMembership(records, true, ip);
  }

  /** `get_ip_addresses` after the fetch: the two loops over records and their addresses. */
  method CollectIps(records: seq<Record>, includeOptional: bool) returns (ips: seq<string>)
    ensures ips == Collected(records, includeOptional)
  {
    ips := [];
    for n := 0 to |records|
      invariant ips == Collected(records[..n], includeOptional)
    {
      var record := records[n];
      ghost var before := ips;
      if record.ips.Some? {
        var list := record.ips.value;
        for m := 0 to |list|
          invariant ips == InsertAll(before, if Admits(record, includeOptional) then list[..m] else [])
        {
          var ip := list[m];
          assert list[..m + 1][..m] == list[..m];
          if record.required {
            ips := Insert(ips, ip);
          } else if includeOptional {
            ips := Insert(ips, ip);
          }
        }
        assert list[..|list|] == list;
      }
      assert ips == InsertAll(before, Offered(record, includeOptional));
      CollectedStep(records[..n], record, includeOptional);
      assert records[..n + 1] == records[..n] + [record];
    }
    assert records[..|records|] == records;
  }
}
