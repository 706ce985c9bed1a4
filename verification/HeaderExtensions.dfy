/** RTP header extensions: deduplication against lookup.

`Deduplicate` keeps one entry per URI, encrypted entries first; `Find` looks an entry up by URI.
Both take the same filter, so a caller expects a lookup to give the same answer before and after
deduplication. That holds for two of the filters and exactly conditionally for the third.
*/
module HeaderExtensions {

  import opened Common

  datatype Extension = Extension(uri: string, id: int, encrypt: bool)

  datatype Filter = DiscardEncrypted | PreferEncrypted | RequireEncrypted

  predicate UriExists(extensions: seq<Extension>, uri: string) {
    exists i :: 0 <= i < |extensions| && extensions[i].uri == uri
  }

  // HeaderExtensionWithUriExists.
  method ComputeUriExists(extensions: seq<Extension>, uri: string) returns (found: bool)
    ensures found == UriExists(extensions, uri)
  {
    for i := 0 to |extensions|
      invariant forall j :: 0 <= j < i ==> extensions[j].uri != uri
    {
      if extensions[i].uri == uri {
        return true;
      }
    }
    return false;
  }

  // The first and the last entry with the given URI and encryption flag.
  function First(extensions: seq<Extension>, uri: string, encrypt: bool): (r: Option<Extension>) {
    if extensions == [] then None
    else if extensions[0].uri == uri && extensions[0].encrypt == encrypt then Some(extensions[0])
    else First(extensions[1..], uri, encrypt)
  }

  function Last(extensions: seq<Extension>, uri: string, encrypt: bool): (r: Option<Extension>) {
    if extensions == [] then None
    else
      var x := extensions[|extensions| - 1];
      if x.uri == uri && x.encrypt == encrypt then Some(x)
      else Last(extensions[..|extensions| - 1], uri, encrypt)
  }

  // What a lookup by URI means under each filter.
  function Lookup(extensions: seq<Extension>, uri: string, filter: Filter): (r: Option<Extension>) {
    match filter
    case DiscardEncrypted => First(extensions, uri, false)
    case RequireEncrypted => First(extensions, uri, true)
    case PreferEncrypted =>
      var encrypted := First(extensions, uri, true);
      if encrypted.Some? then encrypted else Last(extensions, uri, false)
  }

  // FindHeaderExtensionByUri.
  method Find(extensions: seq<Extension>, uri: string, filter: Filter) returns (r: Option<Extension>)
    ensures r == Lookup(extensions, uri, filter)
  {
    var fallback := None;
    for i := 0 to |extensions|
      invariant fallback == if filter == PreferEncrypted then Last(extensions[..i], uri, false) else None
      invariant filter != DiscardEncrypted ==> First(extensions[..i], uri, true) == None
      invariant filter == DiscardEncrypted ==> First(extensions[..i], uri, false) == None
    {
      var extension := extensions[i];
      assert extensions[..i + 1] == extensions[..i] + [extension];
      assert extensions == extensions[..i] + extensions[i..];
      FirstOfConcat(extensions[..i], [extension], uri, true);
      FirstOfConcat(extensions[..i], [extension], uri, false);
      FirstOfConcat(extensions[..i], extensions[i..], uri, true);
      FirstOfConcat(extensions[..i], extensions[i..], uri, false);
      if extension.uri == uri {
        match filter
        case DiscardEncrypted =>
          if !extension.encrypt {
            return Some(extension);
          }
        case PreferEncrypted =>
          if extension.encrypt {
            return Some(extension);
          } else {
            fallback := Some(extension);
          }
        case RequireEncrypted =>
          if extension.encrypt {
            return Some(extension);
          }
      }
    }
    assert extensions[..|extensions|] == extensions;
    return fallback;
  }

  lemma {:induction false} FirstOfConcat(a: seq<Extension>, b: seq<Extension>, uri: string, encrypt: bool)
    ensures First(a + b, uri, encrypt) ==
            if First(a, uri, encrypt).Some? then First(a, uri, encrypt) else First(b, uri, encrypt)
  {
    if a == [] {
      assert a + b == b;
    } else {
      assert (a + b)[1..] == a[1..] + b;
      FirstOfConcat(a[1..], b, uri, encrypt);
    }
  }

  // One pass of the deduplication: append the entries with the given flag whose URI is missing.
  function Pass(acc: seq<Extension>, extensions: seq<Extension>, encrypt: bool): (r: seq<Extension>)
    decreases |extensions|
  {
    if extensions == [] then acc
    else
      var n := |extensions| - 1;
      var r := Pass(acc, extensions[..n], encrypt);
      var x := extensions[n];
      if x.encrypt == encrypt && !UriExists(r, x.uri) then r + [x] else r
  }

  function Deduplicated(extensions: seq<Extension>, filter: Filter): (r: seq<Extension>) {
    var encrypted := if filter == DiscardEncrypted then [] else Pass([], extensions, true);
    if filter == RequireEncrypted then encrypted else Pass(encrypted, extensions, false)
  }

  // DeduplicateHeaderExtensions.
  method Deduplicate(extensions: seq<Extension>, filter: Filter) returns (filtered: seq<Extension>)
    ensures filtered == Deduplicated(extensions, filter)
    ensures UniqueUris(filtered)
  {
    filtered := [];
    if filter != DiscardEncrypted {
      filtered := RunPass(filtered, extensions, true);
    }
    if filter != RequireEncrypted {
      filtered := RunPass(filtered, extensions, false);
    }
    DeduplicatedUnique(extensions, filter);
  }

  method RunPass(acc: seq<Extension>, extensions: seq<Extension>, encrypt: bool) returns (r: seq<Extension>)
    ensures r == Pass(acc, extensions, encrypt)
  {
    r := acc;
    for i := 0 to |extensions|
      invariant r == Pass(acc, extensions[..i], encrypt)
    {
      assert extensions[..i + 1][..i] == extensions[..i];
      if extensions[i].encrypt == encrypt {
        var exists_ := ComputeUriExists(r, extensions[i].uri);
        if !exists_ {
          r := r + [extensions[i]];
        }
      }
    }
    assert extensions[..|extensions|] == extensions;
  }

  ghost predicate UniqueUris(extensions: seq<Extension>) {
    forall i, j :: 0 <= i < j < |extensions| ==> extensions[i].uri != extensions[j].uri
  }

  ghost predicate AllFlagged(extensions: seq<Extension>, encrypt: bool) {
    forall i :: 0 <= i < |extensions| ==> extensions[i].encrypt == encrypt
  }

  lemma UriExistsConcat(a: seq<Extension>, b: seq<Extension>, uri: string)
    ensures UriExists(a + b, uri) <==> UriExists(a, uri) || UriExists(b, uri)
  {
    if UriExists(b, uri) {
      var i :| 0 <= i < |b| && b[i].uri == uri;
      assert (a + b)[|a| + i].uri == uri;
    } else if UriExists(a, uri) {
      var i :| 0 <= i < |a| && a[i].uri == uri;
      assert (a + b)[i].uri == uri;
    }
  }

  // A pass extends its accumulator by entries carrying the flag and keeps URIs unique.
  lemma {:induction false} PassShape(acc: seq<Extension>, extensions: seq<Extension>, encrypt: bool)
    requires UniqueUris(acc)
    ensures var r := Pass(acc, extensions, encrypt);
      UniqueUris(r) && acc <= r && AllFlagged(r[|acc|..], encrypt)
    decreases |extensions|
  {
    if extensions != [] {
      PassShape(acc, extensions[..|extensions| - 1], encrypt);
    }
  }

  // A pass makes the first flagged entry of every URI that was missing before the one found
  // afterwards.
  lemma {:induction false} PassKeepsFirst(acc: seq<Extension>, extensions: seq<Extension>, encrypt: bool, uri: string)
    requires UniqueUris(acc)
    ensures acc <= Pass(acc, extensions, encrypt)
    ensures var added := Pass(acc, extensions, encrypt)[|acc|..];
      if UriExists(acc, uri) then !UriExists(added, uri)
      else First(added, uri, encrypt) == First(extensions, uri, encrypt)
    decreases |extensions|
  {
    PassShape(acc, extensions, encrypt);
    if extensions != [] {
      var n := |extensions| - 1;
      var prefix, x := extensions[..n], extensions[n];
      var before := Pass(acc, prefix, encrypt);
      PassShape(acc, prefix, encrypt);
      PassKeepsFirst(acc, prefix, encrypt, uri);
      var added := before[|acc|..];
      assert extensions == prefix + [x] && before == acc + added;
      FirstOfConcat(prefix, [x], uri, encrypt);
      FirstIffExists(added, uri, encrypt);
      UriExistsConcat(acc, added, x.uri);
      if x.encrypt == encrypt && !UriExists(before, x.uri) {
        assert (before + [x])[|acc|..] == added + [x];
        FirstOfConcat(added, [x], uri, encrypt);
        UriExistsConcat(added, [x], uri);
      }
    }
  }

  lemma {:induction false} FirstIffExists(extensions: seq<Extension>, uri: string, encrypt: bool)
    requires AllFlagged(extensions, encrypt)
    ensures First(extensions, uri, encrypt).Some? <==> UriExists(extensions, uri)
    ensures First(extensions, uri, !encrypt) == None
  {
    if extensions != [] {
      FirstIffExists(extensions[1..], uri, encrypt);
      assert forall i :: 0 < i < |extensions| ==> extensions[i] == extensions[1..][i - 1];
      if UriExists(extensions[1..], uri) {
        var i :| 0 <= i < |extensions[1..]| && extensions[1..][i].uri == uri;
        assert extensions[i + 1].uri == uri;
      }
    }
  }

  // Every URI survives at most once.
  lemma DeduplicatedUnique(extensions: seq<Extension>, filter: Filter)
    ensures UniqueUris(Deduplicated(extensions, filter))
  {
    PassShape([], extensions, true);
    PassShape([], extensions, false);
    PassShape(Pass([], extensions, true), extensions, false);
  }

  // What survives for a URI: its first encrypted entry if those are kept, else its first plain one.
  function Survivor(extensions: seq<Extension>, uri: string, filter: Filter): (r: Option<Extension>) {
    var encrypted := if filter == DiscardEncrypted then None else First(extensions, uri, true);
    if encrypted.Some? || filter == RequireEncrypted then encrypted else First(extensions, uri, false)
  }

  // A lookup in an encrypted block followed by a plain block.
  lemma LookupInBlocks(enc: seq<Extension>, plain: seq<Extension>, uri: string)
    requires AllFlagged(enc, true) && AllFlagged(plain, false) && UniqueUris(enc + plain)
    ensures First(enc + plain, uri, true) == First(enc, uri, true)
    ensures First(enc + plain, uri, false) == Last(enc + plain, uri, false) == First(plain, uri, false)
  {
    FirstIffExists(enc, uri, true);
    FirstIffExists(plain, uri, false);
    FirstOfConcat(enc, plain, uri, true);
    FirstOfConcat(enc, plain, uri, false);
    UniqueFirstIsLast(enc + plain, uri, false);
  }

  lemma LookupAfterDeduplication(extensions: seq<Extension>, uri: string, filter: Filter)
    ensures Lookup(Deduplicated(extensions, filter), uri, filter) == Survivor(extensions, uri, filter)
  {
    var enc := if filter == DiscardEncrypted then [] else Pass([], extensions, true);
    PassShape([], extensions, true);
    PassKeepsFirst([], extensions, true, uri);
    assert enc == enc[0..];
    if filter != RequireEncrypted {
      PassShape(enc, extensions, false);
      PassKeepsFirst(enc, extensions, false, uri);
      var all := Pass(enc, extensions, false);
      assert all == enc + all[|enc|..];
      LookupInBlocks(enc, all[|enc|..], uri);
      FirstIffExists(enc, uri, true);
    }
  }

  lemma {:induction false} UniqueFirstIsLast(extensions: seq<Extension>, uri: string, encrypt: bool)
    requires UniqueUris(extensions)
    ensures First(extensions, uri, encrypt) == Last(extensions, uri, encrypt)
  {
    if extensions != [] {
      var n := |extensions| - 1;
      assert extensions == extensions[..n] + [extensions[n]];
      UniqueFirstIsLast(extensions[..n], uri, encrypt);
      FirstOfConcat(extensions[..n], [extensions[n]], uri, encrypt);
      if extensions[n].uri == uri && First(extensions[..n], uri, encrypt).Some? {
        FirstIsMember(extensions[..n], uri, encrypt);
        assert false;
      }
    }
  }

  lemma {:induction false} FirstIsMember(extensions: seq<Extension>, uri: string, encrypt: bool)
    requires First(extensions, uri, encrypt).Some?
    ensures UriExists(extensions, uri)
  {
    if extensions[0].uri == uri {
    } else {
      FirstIsMember(extensions[1..], uri, encrypt);
      var i :| 0 <= i < |extensions[1..]| && extensions[1..][i].uri == uri;
      assert extensions[i + 1].uri == uri;
    }
  }

  // Deduplication preserves every lookup, except that the preferring lookup falls back on the last
  // plain entry of a URI while deduplication keeps the first: there it does so exactly when the URI
  // has an encrypted entry or its first and last plain entries agree.
  lemma LookupPreserved(extensions: seq<Extension>, uri: string, filter: Filter)
    ensures Lookup(Deduplicated(extensions, filter), uri, filter) == Lookup(extensions, uri, filter)
       <==> ( || filter != PreferEncrypted
              || First(extensions, uri, true).Some?
              || First(extensions, uri, false) == Last(extensions, uri, false))
  {
    LookupAfterDeduplication(extensions, uri, filter);
  }

  // Two plain entries with one URI: the preferring lookup changes its answer.
  lemma PreferringLookupCanChange()
    ensures var twice := [Extension("u", 1, false), Extension("u", 2, false)];
      && Lookup(twice, "u", PreferEncrypted) == Some(Extension("u", 2, false))
      && Lookup(Deduplicated(twice, PreferEncrypted), "u", PreferEncrypted) == Some(Extension("u", 1, false))
  {
    var twice := [Extension("u", 1, false), Extension("u", 2, false)];
    LookupAfterDeduplication(twice, "u", PreferEncrypted);
    assert First(twice[1..], "u", true) == None;
  }

  // A pass leaves alone what is already there, and restores a flagged block with unique URIs.
  lemma {:induction false} PassOverBlock(acc: seq<Extension>, block: seq<Extension>, encrypt: bool)
    requires UniqueUris(acc + block)
    requires AllFlagged(block, encrypt)
    ensures Pass(acc, block, encrypt) == acc + block
    decreases |block|
  {
    if block == [] {
      assert acc + block == acc;
    } else {
      var n := |block| - 1;
      var x := block[n];
      assert (acc + block)[..|acc| + n] == acc + block[..n];
      PassOverBlock(acc, block[..n], encrypt);
      assert (acc + block)[|acc| + n] == x;
      assert !UriExists(acc + block[..n], x.uri);
    }
  }

  lemma {:induction false} PassSkips(acc: seq<Extension>, a: seq<Extension>, b: seq<Extension>, encrypt: bool)
    requires AllFlagged(b, !encrypt)
    ensures Pass(acc, a + b, encrypt) == Pass(acc, a, encrypt)
    decreases |b|
  {
    if b == [] {
      assert a + b == a;
    } else {
      assert (a + b)[..|a + b| - 1] == a + b[..|b| - 1];
      PassSkips(acc, a, b[..|b| - 1], encrypt);
    }
  }

  lemma {:induction false} PassConcat(acc: seq<Extension>, a: seq<Extension>, b: seq<Extension>, encrypt: bool)
    ensures Pass(acc, a + b, encrypt) == Pass(Pass(acc, a, encrypt), b, encrypt)
    decreases |b|
  {
    if b == [] {
      assert a + b == a;
    } else {
      assert (a + b)[..|a + b| - 1] == a + b[..|b| - 1];
      PassConcat(acc, a, b[..|b| - 1], encrypt);
    }
  }

  // Deduplicating twice is deduplicating once, for every filter.
  lemma DeduplicationIdempotent(extensions: seq<Extension>, filter: Filter)
    ensures Deduplicated(Deduplicated(extensions, filter), filter) == Deduplicated(extensions, filter)
  {
    var enc := if filter == DiscardEncrypted then [] else Pass([], extensions, true);
    var all := Deduplicated(extensions, filter);
    PassShape([], extensions, true);
    PassShape(enc, extensions, false);
    var plain := all[|enc|..];
    assert all == enc + plain;
    assert AllFlagged(enc, true) by { assert enc == enc[0..]; }
    if filter != DiscardEncrypted {
      assert [] + enc == enc;
      PassOverBlock([], enc, true);
      PassSkips([], enc, plain, true);
    }
    if filter != RequireEncrypted {
      PassConcat(enc, enc, plain, false);
      assert [] + enc == enc;
      PassSkips(enc, [], enc, false);
      PassOverBlock(enc, plain, false);
    }
  }
}
