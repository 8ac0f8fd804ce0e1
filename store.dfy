/**
 * The ephemeral PDF store: the table `pdf_files` from file name to expiry
 * time (main.py:40) next to the directory `static/pdfs` that holds the
 * files, one cycle of the retention sweep `cleanup_old_files`
 * (main.py:78-92) and the publisher `save_pdf_get_url` (main.py:102-117).
 *
 * Times are whole seconds. The directory is a map from file name to
 * content. `os.remove` fails on a name whose file is missing, and on the
 * names in a `failing` set given to the sweep (permissions and the like).
 */
module PdfStore {
  import opened Common
  import opened Naming

  /** `timedelta(hours=1)`, in seconds. */
  const TTL := 3600

  /** A snapshot of the table and the directory. */
  datatype State = State(expiries: map<string, int>, files: map<string, Bytes>)

  /** The sweep's selection test `current_time > expiry_time` (main.py:82). */
  predicate IsExpired(s: State, name: string, now: int) {
    name in s.expiries && now > s.expiries[name]
  }

  /** Whether `os.remove` of the name's file succeeds. */
  predicate Removable(s: State, failing: set<string>, name: string) {
    name in s.files && name !in failing
  }

  /** Both states agree on `name`, in the table and in the directory. */
  predicate SameAt(s: State, t: State, name: string) {
    && (name in s.expiries <==> name in t.expiries)
    && (name in s.expiries ==> s.expiries[name] == t.expiries[name])
    && (name in s.files <==> name in t.files)
    && (name in s.files ==> s.files[name] == t.files[name])
  }

  /** Every tracked name has its file: what publishing sets up. */
  predicate Tracked(s: State) {
    s.expiries.Keys <= s.files.Keys
  }

  function Without(s: State, gone: set<string>): State {
    State(s.expiries - gone, s.files - gone)
  }

  /** The names in `names` whose removal succeeds. */
  function Reclaimed(s: State, failing: set<string>, names: set<string>): set<string> {
    set k | k in names && Removable(s, failing, k)
  }

  function ExpiredNames(s: State, now: int): set<string> {
    set k | k in s.expiries && now > s.expiries[k]
  }

  // ---------------------------------------------------------------------
  // The sweep

  /** One pass of the per-entry `try`: remove the file, then the entry; either exception is swallowed. */
  function TryRemove(s: State, failing: set<string>, name: string): State {
    if Removable(s, failing, name) then Without(s, {name}) else s
  }

  /** The `for` loop over the collected names (main.py:86-92), in list order. */
  function RemoveEach(s: State, failing: set<string>, names: seq<string>): State
    decreases |names|
  {
    if names == [] then s else RemoveEach(TryRemove(s, failing, names[0]), failing, names[1..])
  }

  /** One sweep cycle at time `now`, stated per name. */
  function Swept(s: State, failing: set<string>, now: int): (r: State)
    // expired and removable: the file and the entry are both gone
    ensures forall k :: IsExpired(s, k, now) && Removable(s, failing, k) ==>
      k !in r.expiries && k !in r.files
    // expired but the removal raised: nothing changes for it, and it is still expired
    ensures forall k :: IsExpired(s, k, now) && !Removable(s, failing, k) ==>
      SameAt(s, r, k) && IsExpired(r, k, now)
    // not expired (including an expiry equal to `now`, and untracked files): untouched
    ensures forall k :: !IsExpired(s, k, now) ==> SameAt(s, r, k)
    ensures r.expiries.Keys <= s.expiries.Keys && r.files.Keys <= s.files.Keys
    ensures Tracked(s) ==> Tracked(r)
  {
    Without(s, Reclaimed(s, failing, ExpiredNames(s, now)))
  }

  /** Processing names one by one, in any order and even with repeats, removes exactly the removable ones. */
  lemma {:induction false} RemoveEachReclaims(s: State, failing: set<string>, names: seq<string>)
    ensures RemoveEach(s, failing, names) == Without(s, Reclaimed(s, failing, set k | k in names))
    decreases |names|
  {
    if names == [] {
      assert (set k | k in names) == {};
      assert Without(s, {}) == s;
    } else {
      var n := names[0];
      var s' := TryRemove(s, failing, n);
      var rest := set k | k in names[1..];
      var all := set k | k in names;
      RemoveEachReclaims(s', failing, names[1..]);
      assert all == {n} + rest;
      if Removable(s, failing, n) {
        assert Reclaimed(s', failing, rest) == Reclaimed(s, failing, rest) - {n};
        assert Reclaimed(s, failing, all) == {n} + Reclaimed(s', failing, rest);
        assert Without(s', Reclaimed(s', failing, rest)) == Without(s, Reclaimed(s, failing, all));
      } else {
        assert Reclaimed(s, failing, all) == Reclaimed(s', failing, rest);
      }
    }
  }

  /** The loop over any listing of the expired names is one sweep cycle. */
  lemma LoopIsSweep(s: State, failing: set<string>, now: int, names: seq<string>)
    requires forall k :: k in names <==> IsExpired(s, k, now)
    ensures RemoveEach(s, failing, names) == Swept(s, failing, now)
  {
    RemoveEachReclaims(s, failing, names);
    assert (set k | k in names) == ExpiredNames(s, now);
  }

  /** With nothing expired a sweep changes neither the table nor the directory. */
  lemma SweepWithNothingExpired(s: State, failing: set<string>, now: int)
    requires forall k :: k in s.expiries ==> now <= s.expiries[k]
    ensures Swept(s, failing, now) == s
  {
  }

  /** A second sweep at the same time, with the same failures, removes nothing more. */
  lemma SweepIdempotent(s: State, failing: set<string>, now: int)
    ensures Swept(Swept(s, failing, now), failing, now) == Swept(s, failing, now)
  {
  }

  /** After a sweep in which every removal succeeded, nothing is expired and a next sweep is a no-op. */
  lemma SweepAfterFullSuccess(s: State, failing: set<string>, failing': set<string>, now: int)
    requires forall k :: IsExpired(s, k, now) ==> Removable(s, failing, k)
    ensures forall k :: !IsExpired(Swept(s, failing, now), k, now)
    ensures Swept(Swept(s, failing, now), failing', now) == Swept(s, failing, now)
  {
  }

  /** An entry whose removal failed stays tracked and is removed by a later cycle in which the removal succeeds. */
  lemma FailedEntryRetried(s: State, failing: set<string>, failing': set<string>, now: int, later: int, name: string)
    requires IsExpired(s, name, now) && name in s.files && name in failing
    requires later >= now && name !in failing'
    ensures name in Swept(s, failing, now).expiries
    ensures var r := Swept(Swept(s, failing, now), failing', later);
      name !in r.expiries && name !in r.files
  {
  }

  // ---------------------------------------------------------------------
  // Publishing

  /**
   * What `save_pdf_get_url` reads from outside: the formatted time of its
   * first `datetime.now()`, `uuid4().hex`, the second `datetime.now()` in
   * seconds, and the names the filesystem refuses to write.
   */
  datatype Stamp = Stamp(timestamp: string, uuidHex: string, now: int, unwritable: set<string>)

  function StampName(st: Stamp): string {
    PdfFilename(st.timestamp, ShortToken(st.uuidHex))
  }

  /** The file `name` holds `pdf` and expires an hour after `now`; an existing name is overwritten. */
  function Published(s: State, name: string, pdf: Bytes, now: int): State {
    State(s.expiries[name := now + TTL], s.files[name := pdf])
  }

  /** One call of `save_pdf_get_url`: the new state and the URL, or `None` when writing the file raised. */
  function Publication(s: State, pdf: Bytes, baseUrl: string, st: Stamp): (r: (State, Option<string>))
    ensures r.1.None? <==> StampName(st) in st.unwritable
    ensures r.1.None? ==> r.0 == s
    ensures r.1.Some? ==> r.1.value == PdfUrl(baseUrl, StampName(st))
    ensures r.1.Some? ==>
      var name := StampName(st);
      && name in r.0.files && r.0.files[name] == pdf
      && name in r.0.expiries && r.0.expiries[name] == st.now + TTL
      && (forall k :: k != name ==> SameAt(s, r.0, k))
    ensures Tracked(s) ==> Tracked(r.0)
  {
    var name := StampName(st);
    if name in st.unwritable then (s, None)
    else (Published(s, name, pdf, st.now), Some(PdfUrl(baseUrl, name)))
  }

  /** For a well-formed stamp the published name has 32 characters and is the last segment of the returned URL. */
  lemma PublishedUrlNamesFile(s: State, pdf: Bytes, baseUrl: string, st: Stamp)
    requires IsTimestamp(st.timestamp) && IsUuidHex(st.uuidHex)
    ensures var r := Publication(s, pdf, baseUrl, st);
      r.1.Some? ==> |StampName(st)| == 32 && LastSegment(r.1.value) == StampName(st)
  {
    FilenameShape(st.timestamp, ShortToken(st.uuidHex));
    UrlEndsWithName(baseUrl, StampName(st));
  }

  /** A published file survives every sweep up to its expiry and is gone after the first successful sweep past it. */
  lemma PublishedLifetime(s: State, name: string, pdf: Bytes, now: int, failing: set<string>, t: int)
    ensures var r := Swept(Published(s, name, pdf, now), failing, t);
      t <= now + TTL ==> name in r.files && r.files[name] == pdf && name in r.expiries
    ensures var r := Swept(Published(s, name, pdf, now), failing, t);
      t > now + TTL && name !in failing ==> name !in r.files && name !in r.expiries
  {
  }

  // ---------------------------------------------------------------------
  // The list comprehension of the sweep

  /** The names whose expiry is strictly earlier than `now` (main.py:80-83), each listed once. */
  method CollectExpired(expiries: map<string, int>, now: int) returns (names: seq<string>)
    ensures forall k :: k in names <==> k in expiries && now > expiries[k]
    ensures forall i, j :: 0 <= i < j < |names| ==> names[i] != names[j]
  {
    names := [];
    var pending := expiries.Keys;
    while pending != {}
      invariant pending <= expiries.Keys
      invariant forall k :: k in names <==> k in expiries && k !in pending && now > expiries[k]
      invariant forall i, j :: 0 <= i < j < |names| ==> names[i] != names[j]
      decreases pending
    {
      var k :| k in pending;
      if now > expiries[k] {
        names := names + [k];
      }
      pending := pending - {k};
    }
  }

  // ---------------------------------------------------------------------
  // The shared state

  /** The table `pdf_files` and the directory `static/pdfs`. */
  class Store {
    var expiries: map<string, int>
    var files: map<string, Bytes>

    function Snapshot(): State
      reads this
    {
      State(expiries, files)
    }

    /** Start-up: an empty table; the directory keeps whatever files an earlier run left in it. */
    constructor (existing: map<string, Bytes>)
      ensures expiries == map[] && files == existing
      ensures Tracked(Snapshot())
    {
      expiries := map[];
      files := existing;
    }

    /** One cycle of `cleanup_old_files` at time `now`. */
    method Sweep(now: int, failing: set<string>)
      modifies this
      ensures Snapshot() == Swept(old(Snapshot()), failing, now)
    {
      ghost var start := Snapshot();
      var expiredFiles := CollectExpired(expiries, now);
      for i := 0 to |expiredFiles|
        invariant RemoveEach(Snapshot(), failing, expiredFiles[i..]) == RemoveEach(start, failing, expiredFiles)
      {
        var name := expiredFiles[i];
        ghost var before := Snapshot();
        if name in files && name !in failing {
          // os.remove succeeded
          files := files - {name};
          if name in expiries {
            expiries := expiries - {name};
          }
          // otherwise `del` raised KeyError, which is swallowed
        }
        // otherwise os.remove raised OSError, which is swallowed: the entry stays
        assert Snapshot() == TryRemove(before, failing, name);
        assert expiredFiles[i..][1..] == expiredFiles[i + 1..];
      }
      LoopIsSweep(start, failing, now, expiredFiles);
    }

    /** `save_pdf_get_url`: write the file, register it for an hour, return its URL. */
    method Publish(pdf: Bytes, baseUrl: string, st: Stamp) returns (url: Option<string>)
      modifies this
      ensures (Snapshot(), url) == Publication(old(Snapshot()), pdf, baseUrl, st)
    {
      var name := PdfFilename(st.timestamp, ShortToken(st.uuidHex));
      if name in st.unwritable {
        // open()/write() raised OSError: nothing is written or registered
        url := None;
        return;
      }
      files := files[name := pdf];
      expiries := expiries[name := st.now + TTL];
      url := Some(PdfUrl(baseUrl, name));
    }
  }
}
