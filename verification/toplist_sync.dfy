/**
 * `sync_all_toplists` in dataflair-toplists.php: the endpoints option is a
 * newline-separated list; every trimmed, non-empty line is fetched and
 * counted as synced or as an error. Fetching and storing one endpoint
 * (`fetch_and_store_toplist`) is a parameter.
 */
module ToplistSync {
  import opened Common
  import opened PhpStrings

  datatype SyncCounts = SyncCounts(synced: nat, errors: nat)

  const NoTokenError: string := "API token not configured"
  const NoEndpointsError: string := "No endpoints configured"

  /** `array_filter` over strings: drops the values PHP treats as false ("" and "0"). */
  function KeepNonEmpty(xs: seq<string>): (r: seq<string>)
    ensures |r| <= |xs|
    ensures forall i :: 0 <= i < |r| ==> !IsEmpty(r[i])
    ensures forall x :: x in r <==> x in xs && !IsEmpty(x)
    ensures forall x :: multiset(r)[x] == if IsEmpty(x) then 0 else multiset(xs)[x]
  {
    if |xs| == 0 then []
    else
      var rest := KeepNonEmpty(xs[..|xs| - 1]);
      var last := xs[|xs| - 1];
      assert xs == xs[..|xs| - 1] + [last];
      assert multiset(xs) == multiset(xs[..|xs| - 1]) + multiset{last};
      if IsEmpty(last) then rest else rest + [last]
  }

  /** The filter works piece by piece and keeps the order: filtering a concatenation concatenates the filtered parts. */
  lemma {:induction false} KeepNonEmptyAppend(a: seq<string>, b: seq<string>)
    ensures KeepNonEmpty(a + b) == KeepNonEmpty(a) + KeepNonEmpty(b)
  {
    if |b| == 0 {
      assert a + b == a;
    } else {
      assert (a + b)[..|a + b| - 1] == a + b[..|b| - 1];
      assert (a + b)[|a + b| - 1] == b[|b| - 1];
      KeepNonEmptyAppend(a, b[..|b| - 1]);
    }
  }

  /** One value is kept exactly when it is not `empty()`. */
  lemma KeepNonEmptySingle(x: string)
    ensures KeepNonEmpty([x]) == if IsEmpty(x) then [] else [x]
  {
    assert [x][..0] == [];
  }

  /** Trimming never introduces a character. */
  lemma TrimKeepsOut(s: string, c: char)
    requires c !in s
    ensures c !in Trim(s)
  {
    var l := TrimLeft(s);
    assert l == s[|s| - |l|..];
    assert c !in l;
    var r := TrimRight(l);
    assert r == l[..|r|];
  }

  lemma TrimmedLines(lines: seq<string>)
    requires forall i :: 0 <= i < |lines| ==> '\n' !in lines[i]
    ensures forall i :: 0 <= i < |lines| ==> IsTrimmed(TrimAll(lines)[i]) && '\n' !in TrimAll(lines)[i]
  {
    forall i | 0 <= i < |lines| ensures IsTrimmed(TrimAll(lines)[i]) && '\n' !in TrimAll(lines)[i] {
      TrimResult(lines[i]);
      TrimKeepsOut(lines[i], '\n');
    }
  }

  lemma TrimAllMembers(lines: seq<string>, e: string)
    ensures e in TrimAll(lines) <==> exists line :: line in lines && Trim(line) == e
  {
    var t := TrimAll(lines);
    if e in t {
      var j :| 0 <= j < |t| && t[j] == e;
      assert lines[j] in lines && Trim(lines[j]) == e;
    }
    if exists line :: line in lines && Trim(line) == e {
      var line :| line in lines && Trim(line) == e;
      var j :| 0 <= j < |lines| && lines[j] == line;
      assert t[j] == e;
    }
  }

  /** `e` is the trim of some line of the option. */
  predicate IsTrimmedLine(endpoints: string, e: string) {
    exists line :: line in Explode(endpoints, '\n') && Trim(line) == e
  }

  /** `array_filter(array_map('trim', explode("\n", $endpoints)))`. */
  function ParseEndpoints(endpoints: string): (r: seq<string>)
    ensures forall i :: 0 <= i < |r| ==> !IsEmpty(r[i]) && IsTrimmed(r[i]) && '\n' !in r[i]
    ensures forall e :: e in r <==> !IsEmpty(e) && IsTrimmedLine(endpoints, e)
  {
    var lines := Explode(endpoints, '\n');
    var t := TrimAll(lines);
    EndpointFacts(lines);
    var r := KeepNonEmpty(t);
    forall i | 0 <= i < |r|
      ensures !IsEmpty(r[i]) && IsTrimmed(r[i]) && '\n' !in r[i]
    {
      assert r[i] in t;
      var j :| 0 <= j < |t| && t[j] == r[i];
    }
    assert forall e :: e in r <==> !IsEmpty(e) && IsTrimmedLine(endpoints, e) by {
      forall e ensures e in r <==> !IsEmpty(e) && IsTrimmedLine(endpoints, e) {
        assert e in t <==> IsTrimmedLine(endpoints, e);
      }
    }
    r
  }

  /** The endpoint a single line of the option contributes: its trim, unless that is `empty()`. */
  function LineEndpoint(line: string): seq<string> {
    if IsEmpty(Trim(line)) then [] else [Trim(line)]
  }

  /** An option of one line gives that line's endpoint, if any. */
  lemma ParseEndpointsOneLine(line: string)
    requires '\n' !in line
    ensures ParseEndpoints(line) == LineEndpoint(line)
  {
    ExplodeNoSeparator(line, '\n');
    assert TrimAll([line]) == [Trim(line)];
    KeepNonEmptySingle(Trim(line));
  }

  /**
   * The first line's endpoint comes first, followed by the endpoints of the
   * remaining lines in order; a repeated line yields its endpoint again.
   */
  lemma ParseEndpointsFirstLine(line: string, rest: string)
    requires '\n' !in line
    ensures ParseEndpoints(line + "\n" + rest) == LineEndpoint(line) + ParseEndpoints(rest)
  {
    ExplodeHead(line, '\n', rest);
    assert line + "\n" + rest == line + ['\n'] + rest;
    var tail := Explode(rest, '\n');
    assert TrimAll([line] + tail) == [Trim(line)] + TrimAll(tail);
    KeepNonEmptyAppend([Trim(line)], TrimAll(tail));
    KeepNonEmptySingle(Trim(line));
  }

  /** What trimming the lines of the option gives, element by element and as a set. */
  lemma EndpointFacts(lines: seq<string>)
    requires forall i :: 0 <= i < |lines| ==> '\n' !in lines[i]
    ensures forall i :: 0 <= i < |lines| ==> IsTrimmed(TrimAll(lines)[i]) && '\n' !in TrimAll(lines)[i]
    ensures forall e :: e in TrimAll(lines) <==> exists line :: line in lines && Trim(line) == e
  {
    TrimmedLines(lines);
    forall e ensures e in TrimAll(lines) <==> exists line :: line in lines && Trim(line) == e {
      TrimAllMembers(lines, e);
    }
  }

  function CountOk(endpoints: seq<string>, fetchOk: string -> bool): (n: nat)
    ensures n <= |endpoints|
  {
    if |endpoints| == 0 then 0
    else CountOk(endpoints[..|endpoints| - 1], fetchOk) + (if fetchOk(endpoints[|endpoints| - 1]) then 1 else 0)
  }

  /** The loop over the parsed endpoints, one counter step per endpoint. */
  method CountResults(endpoints: seq<string>, fetchOk: string -> bool) returns (c: SyncCounts)
    ensures c.synced + c.errors == |endpoints|
    ensures c.synced == CountOk(endpoints, fetchOk)
  {
    var synced := 0;
    var errors := 0;
    var i := 0;
    while i < |endpoints|
      invariant 0 <= i <= |endpoints|
      invariant synced == CountOk(endpoints[..i], fetchOk)
      invariant synced + errors == i
    {
      assert endpoints[..i + 1][..i] == endpoints[..i];
      if fetchOk(endpoints[i]) {
        synced := synced + 1;
      } else {
        errors := errors + 1;
      }
      i := i + 1;
    }
    assert endpoints[..|endpoints|] == endpoints;
    c := SyncCounts(synced, errors);
  }

  /** `sync_all_toplists()` with the two options read and fetching as `fetchOk`. */
  method SyncAllToplists(token: string, endpoints: string, fetchOk: string -> bool) returns (r: Result<SyncCounts>)
    ensures IsEmpty(token) ==> r == Err(NoTokenError)
    ensures !IsEmpty(token) && IsEmpty(endpoints) ==> r == Err(NoEndpointsError)
    ensures !IsEmpty(token) && !IsEmpty(endpoints) ==> r.Ok?
    ensures r.Ok? ==> r.value.synced + r.value.errors == |ParseEndpoints(endpoints)|
    ensures r.Ok? ==> r.value.synced == CountOk(ParseEndpoints(endpoints), fetchOk)
  {
    if IsEmpty(token) {
      return Err(NoTokenError);
    }
    if IsEmpty(endpoints) {
      return Err(NoEndpointsError);
    }
    var counts := CountResults(ParseEndpoints(endpoints), fetchOk);
    return Ok(counts);
  }
}
