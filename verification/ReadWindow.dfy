/** Reading the newest evaluation of one watcher instance from a paged history. */
module ReadWindow {
  import opened Common

  const HISTORY_PAGE_MAX := 1000
  const U64_MODULUS := 0x1_0000_0000_0000_0000

  /** One exported record as decoded; missing or malformed fields are `None`. */
  datatype Record = Record(sequence: Option<nat>, envelope: Option<Envelope>)
  datatype Envelope = Envelope(instance: Option<string>, body: string)
  datatype Page = Page(through: Option<nat>, records: Option<seq<Record>>, complete: Option<bool>, next: Option<nat>)

  datatype Newest = Newest(sequence: nat, envelope: Envelope)
  datatype Window = Window(through: nat, newest: Option<Newest>)

  /** What one export call asks for: everything, or the frozen range `(after, through]`. */
  datatype Range = Everything | Frozen(after: nat, through: nat)

  /** One `evaluations export` call: how many calls came before it, the limit
      and the range. No page is a failed command. */
  type Export = (nat, nat, Range) -> Option<Page>

  function Start(through: nat, windowRecords: nat): nat {
    if through >= windowRecords then through - windowRecords else 0
  }

  // ----- one page ----------------------------------------------------------

  datatype Progress = Progress(last: nat, newest: Option<Newest>)

  /** Folds one page into the progress so far; none at the first record that is
      malformed or out of order. */
  function Scan(records: seq<Record>, p: Progress, through: nat, instance: string): Option<Progress> {
    if records == [] then Some(p)
    else
      var r := records[0];
      if r.sequence == None || r.sequence.value <= p.last || r.sequence.value > through then None
      else if r.envelope == None || r.envelope.value.instance == None then None
      else Scan(records[1..], Advance(p, r.sequence.value, r.envelope.value, instance), through, instance)
  }

  function Advance(p: Progress, sequence: nat, envelope: Envelope, instance: string): Progress {
    Progress(sequence, if envelope.instance == Some(instance) then Some(Newest(sequence, envelope)) else p.newest)
  }

  method ScanPage(records: seq<Record>, last: nat, newest: Option<Newest>, through: nat, instance: string)
    returns (ok: bool, last': nat, newest': Option<Newest>)
    ensures Scan(records, Progress(last, newest), through, instance) == if ok then Some(Progress(last', newest')) else None
  {
    last', newest' := last, newest;
    var i := 0;
    while i < |records|
      invariant 0 <= i <= |records|
      invariant Scan(records, Progress(last, newest), through, instance) ==
                Scan(records[i..], Progress(last', newest'), through, instance)
    {
      var r := records[i];
      if r.sequence == None || r.sequence.value <= last' || r.sequence.value > through {
        return false, last', newest';
      }
      if r.envelope == None || r.envelope.value.instance == None {
        return false, last', newest';
      }
      last' := r.sequence.value;
      if r.envelope.value.instance == Some(instance) {
        newest' := Some(Newest(r.sequence.value, r.envelope.value));
      }
      assert records[i..][1..] == records[i + 1..];
      i := i + 1;
    }
    ok := true;
  }

  /** Complete records in strict order above `low` and not above `through`. */
  ghost predicate Orderly(records: seq<Record>, low: nat, through: nat) {
    && (forall i :: 0 <= i < |records| ==>
          && records[i].sequence.Some? && low < records[i].sequence.value <= through
          && records[i].envelope.Some? && records[i].envelope.value.instance.Some?)
    && (forall i, j :: 0 <= i < j < |records| ==> records[i].sequence.value < records[j].sequence.value)
  }

  /** Record `i` is the instance's, and none after it is. */
  ghost predicate LastOf(records: seq<Record>, instance: string, i: nat)
    requires i < |records| && forall k :: 0 <= k < |records| ==> records[k].envelope.Some?
  {
    && records[i].envelope.value.instance == Some(instance)
    && forall k :: i < k < |records| ==> records[k].envelope.value.instance != Some(instance)
  }

  lemma OrderlyRest(records: seq<Record>, low: nat, through: nat)
    requires records != []
    ensures Orderly(records, low, through) <==>
      && records[0].sequence.Some? && low < records[0].sequence.value <= through
      && records[0].envelope.Some? && records[0].envelope.value.instance.Some?
      && Orderly(records[1..], records[0].sequence.value, through)
  {
    assert forall i :: 1 <= i < |records| ==> records[i] == records[1..][i - 1];
    assert forall i :: 0 <= i < |records| - 1 ==> records[1..][i] == records[i + 1];
  }

  /** A page is taken exactly when its records are orderly; progress is then at
      its last record, and the newest is the instance's last one in it. */
  lemma {:induction false} ScanIff(records: seq<Record>, p: Progress, through: nat, instance: string)
    ensures Scan(records, p, through, instance).Some? <==> Orderly(records, p.last, through)
    ensures var r := Scan(records, p, through, instance); r.Some? ==>
      && r.value.last == (if records == [] then p.last else records[|records| - 1].sequence.value)
      && (forall i: nat :: i < |records| && LastOf(records, instance, i) ==>
            r.value.newest == Some(Newest(records[i].sequence.value, records[i].envelope.value)))
      && ((forall i: nat :: i < |records| ==> !LastOf(records, instance, i)) ==> r.value.newest == p.newest)
    decreases |records|
  {
    if records != [] {
      var first, rest := records[0], records[1..];
      OrderlyRest(records, p.last, through);
      if Orderly(records, p.last, through) {
        var q := Advance(p, first.sequence.value, first.envelope.value, instance);
        ScanIff(rest, q, through, instance);
        LastOfRest(records, instance);
      } else if first.sequence.Some? && first.envelope.Some? {
        ScanIff(rest, Advance(p, first.sequence.value, first.envelope.value, instance), through, instance);
      }
    }
  }

  lemma LastOfRest(records: seq<Record>, instance: string)
    requires records != [] && forall k :: 0 <= k < |records| ==> records[k].envelope.Some?
    ensures forall i: nat :: i < |records| - 1 ==> (LastOf(records[1..], instance, i) <==> LastOf(records, instance, i + 1))
    ensures LastOf(records, instance, 0) <==>
      records[0].envelope.value.instance == Some(instance) && forall i: nat :: i < |records| - 1 ==> !LastOf(records[1..], instance, i)
  {
    forall i: nat | i < |records| - 1
      ensures LastOf(records[1..], instance, i) <==> LastOf(records, instance, i + 1)
    {
      assert forall k :: i + 1 < k < |records| ==> records[k] == records[1..][k - 1];
      assert forall k :: i < k < |records| - 1 ==> records[1..][k] == records[k + 1];
    }
    if k: nat :| 0 < k < |records| && records[k].envelope.value.instance == Some(instance) {
      var m := LastIndex(records[1..], instance, k - 1);
      assert records[1..][m] == records[m + 1];
    } else {
      assert forall k :: 0 <= k < |records| - 1 ==> records[1..][k] == records[k + 1];
    }
  }

  lemma {:induction false} LastIndex(records: seq<Record>, instance: string, k: nat) returns (m: nat)
    requires k < |records| && forall x :: 0 <= x < |records| ==> records[x].envelope.Some?
    requires records[k].envelope.value.instance == Some(instance)
    ensures k <= m < |records| && LastOf(records, instance, m)
    decreases |records| - k
  {
    if x :| k < x < |records| && records[x].envelope.value.instance == Some(instance) {
      m := LastIndex(records, instance, x);
    } else {
      m := k;
    }
  }

  /** Whatever a page holds, progress stays inside the window. */
  ghost predicate Inside(p: Progress, start: nat, through: nat) {
    start <= p.last && (p.newest.Some? ==> start < p.newest.value.sequence <= through)
  }

  lemma {:induction false} ScanStaysInside(records: seq<Record>, p: Progress, start: nat, through: nat, instance: string)
    requires Inside(p, start, through) && Scan(records, p, through, instance).Some?
    ensures Inside(Scan(records, p, through, instance).value, start, through)
    decreases |records|
  {
    if records != [] {
      var r := records[0];
      ScanStaysInside(records[1..], Advance(p, r.sequence.value, r.envelope.value, instance), start, through, instance);
    }
  }

  lemma ScanStaysInside'(records: seq<Record>, p: Progress, start: nat, through: nat, instance: string)
    requires Inside(p, start, through)
    ensures var r := Scan(records, p, through, instance); r.Some? ==> Inside(r.value, start, through)
  {
    if Scan(records, p, through, instance).Some? {
      ScanStaysInside(records, p, start, through, instance);
    }
  }

  // ----- what an honest history answers --------------------------------------

  datatype Stored = Stored(sequence: nat, envelope: Envelope)

  ghost predicate Increasing(store: seq<Stored>) {
    && (forall i, j :: 0 <= i < j < |store| ==> store[i].sequence < store[j].sequence)
    && (forall i :: 0 <= i < |store| ==> store[i].sequence <= U64_MAX && store[i].envelope.instance.Some?)
  }

  /** `a` records have a sequence of at most `q`. */
  ghost predicate Cut(store: seq<Stored>, q: nat, a: nat) {
    && a <= |store| && (forall i :: 0 <= i < a ==> store[i].sequence <= q)
    && (forall i :: a <= i < |store| ==> store[i].sequence > q)
  }

  ghost function AsRecords(slice: seq<Stored>): seq<Record> {
    if slice == [] then [] else [Record(Some(slice[0].sequence), Some(slice[0].envelope))] + AsRecords(slice[1..])
  }

  /** The first `limit` records of the range, which are `store[a..b]`, in
      order; an incomplete page carries a cursor between its last record and
      the next one. */
  ghost predicate HonestPage(store: seq<Stored>, limit: nat, a: nat, b: nat, through: nat, page: Page)
    requires a <= b <= |store|
  {
    var k := Min(limit, b - a);
    && page.through == Some(through)
    && page.records == Some(AsRecords(store[a..a + k]))
    && page.complete == Some(k == b - a)
    && (0 < k < b - a ==> page.next.Some? && store[a + k - 1].sequence <= page.next.value < store[a + k].sequence)
  }

  ghost predicate HonestAnswer(store: seq<Stored>, limit: nat, after: nat, through: nat, answer: Option<Page>) {
    exists a: nat, b: nat :: Cut(store, after, a) && Cut(store, through, b) && a <= b &&
      answer.Some? && HonestPage(store, limit, a, b, through, answer.value)
  }

  /** The probe reports a frozen end; every later answer is honest about `store`. */
  ghost predicate Honest(store: seq<Stored>, export_: Export, through: nat) {
    && Increasing(store) && through <= U64_MAX
    && export_(0, 1, Everything).Some? && export_(0, 1, Everything).value.through == Some(through)
    && forall n: nat, limit: nat, after: nat :: after <= through ==>
         HonestAnswer(store, limit, after, through, export_(n, limit, Frozen(after, through)))
  }

  /** The direct scan: the highest-sequence record of the instance in
      `(low, high]`, none when there is none. */
  ghost predicate IsNewest(store: seq<Stored>, instance: string, low: nat, high: nat, r: Option<Newest>) {
    && (r.Some? ==>
          && Stored(r.value.sequence, r.value.envelope) in store && low < r.value.sequence <= high
          && r.value.envelope.instance == Some(instance))
    && (forall s :: s in store && low < s.sequence <= high && s.envelope.instance == Some(instance)
          ==> r.Some? && s.sequence <= r.value.sequence)
  }

  lemma ScanUnrolls(slice: seq<Stored>, p: Progress, through: nat, instance: string)
    requires slice != [] && p.last < slice[0].sequence <= through && slice[0].envelope.instance.Some?
    ensures Scan(AsRecords(slice), p, through, instance) ==
      Scan(AsRecords(slice[1..]), Advance(p, slice[0].sequence, slice[0].envelope, instance), through, instance)
  {
    assert AsRecords(slice)[1..] == AsRecords(slice[1..]);
  }

  /** Honest records are admitted, and progress follows the direct scan. */
  lemma {:induction false} ScanHonest(store: seq<Stored>, a: nat, k: nat, q: nat, p: Progress, start: nat, through: nat, instance: string)
    requires Increasing(store) && Cut(store, q, a) && a + k <= |store| && start <= q
    requires forall i :: a <= i < a + k ==> store[i].sequence <= through
    requires p.last <= q && IsNewest(store, instance, start, q, p.newest)
    ensures
      var q' := if k == 0 then q else store[a + k - 1].sequence;
      var r := Scan(AsRecords(store[a..a + k]), p, through, instance);
      Cut(store, q', a + k) && r.Some? && r.value.last <= q' && IsNewest(store, instance, start, q', r.value.newest)
    decreases k
  {
    if k > 0 {
      var s := store[a];
      ScanUnrolls(store[a..a + k], p, through, instance);
      assert store[a..a + k][1..] == store[a + 1..a + k];
      AdvanceFollows(store, a, q, p, start, instance);
      ScanHonest(store, a + 1, k - 1, s.sequence, Advance(p, s.sequence, s.envelope, instance), start, through, instance);
    }
  }

  lemma AdvanceFollows(store: seq<Stored>, a: nat, q: nat, p: Progress, start: nat, instance: string)
    requires Increasing(store) && Cut(store, q, a) && a < |store| && start <= q && IsNewest(store, instance, start, q, p.newest)
    ensures Cut(store, store[a].sequence, a + 1)
    ensures IsNewest(store, instance, start, store[a].sequence, Advance(p, store[a].sequence, store[a].envelope, instance).newest)
  {
    var s := store[a];
    var r := Advance(p, s.sequence, s.envelope, instance).newest;
    assert s == Stored(s.sequence, s.envelope) && s in store;
    forall x | x in store && start < x.sequence <= s.sequence && x.envelope.instance == Some(instance)
      ensures r.Some? && x.sequence <= r.value.sequence
    {
      var i :| 0 <= i < |store| && store[i] == x;
      assert i <= a;
    }
  }

  /** Nothing lies between a cut and any later point before the next record. */
  lemma NewestAtCut(store: seq<Stored>, instance: string, start: nat, q: nat, q': nat, a: nat, r: Option<Newest>)
    requires Cut(store, q, a) && q <= q' && IsNewest(store, instance, start, q, r)
    requires a < |store| ==> q' < store[a].sequence || Cut(store, q', a)
    requires Increasing(store)
    ensures Cut(store, q', a) && IsNewest(store, instance, start, q', r)
  {
    forall x | x in store && start < x.sequence <= q' && x.envelope.instance == Some(instance)
      ensures x.sequence <= q
    {
      var i :| 0 <= i < |store| && store[i] == x;
      if a <= i {
        assert false;
      }
    }
  }

  /** `k` records above `q` reach at least `q + k`. */
  lemma {:induction false} SequencesSpread(store: seq<Stored>, q: nat, a: nat, k: nat)
    requires Increasing(store) && Cut(store, q, a) && 0 < k && a + k <= |store|
    ensures store[a + k - 1].sequence >= q + k
  {
    if k > 1 {
      SequencesSpread(store, q, a, k - 1);
    }
  }

  ghost predicate Pending(store: seq<Stored>, instance: string, start: nat, after: nat, through: nat, p: Progress) {
    start <= after < through && p.last <= after && IsNewest(store, instance, start, after, p.newest)
  }

  /** A page that holds the whole rest of the range completes the direct scan. */
  lemma LastPage(store: seq<Stored>, instance: string, start: nat, after: nat, through: nat, p: Progress, a: nat, b: nat)
    requires Increasing(store) && Pending(store, instance, start, after, through, p)
    requires Cut(store, after, a) && Cut(store, through, b) && a <= b
    ensures var r := Scan(AsRecords(store[a..b]), p, through, instance);
      r.Some? && IsNewest(store, instance, start, through, r.value.newest)
  {
    ScanHonest(store, a, b - a, after, p, start, through, instance);
    var q := if b == a then after else store[b - 1].sequence;
    NewestAtCut(store, instance, start, q, through, b, Scan(AsRecords(store[a..b]), p, through, instance).value.newest);
  }

  /** A page that leaves records behind is full, and moves the cursor on by at
      least its length. */
  lemma MiddlePage(store: seq<Stored>, instance: string, start: nat, after: nat, through: nat, p: Progress, a: nat, b: nat, k: nat, next: nat)
    requires Increasing(store) && Pending(store, instance, start, after, through, p)
    requires Cut(store, after, a) && Cut(store, through, b) && 0 < k < b - a
    requires store[a + k - 1].sequence <= next < store[a + k].sequence
    ensures k < through - after && next >= after + k
    ensures var r := Scan(AsRecords(store[a..a + k]), p, through, instance);
      r.Some? && Pending(store, instance, start, next, through, r.value)
  {
    ScanHonest(store, a, k, after, p, start, through, instance);
    SequencesSpread(store, after, a, k);
    SequencesSpread(store, after, a, k + 1);
    var r := Scan(AsRecords(store[a..a + k]), p, through, instance).value;
    NewestAtCut(store, instance, start, store[a + k - 1].sequence, next, a + k, r.newest);
  }

  /** The page is well formed, and either completes the direct scan or moves
      the cursor on by a full page. */
  ghost predicate Advances(store: seq<Stored>, instance: string, start: nat, after: nat, through: nat, p: Progress, limit: nat, page: Page) {
    && page.through == Some(through) && page.records.Some? && |page.records.value| <= limit
    && var r := Scan(page.records.value, p, through, instance);
    && r.Some?
    && (page.complete == Some(true) ==> IsNewest(store, instance, start, through, r.value.newest))
    && (page.complete != Some(true) ==>
          page.next.Some? && page.next.value >= after + HISTORY_PAGE_MAX &&
          Pending(store, instance, start, page.next.value, through, r.value))
  }

  lemma HonestPageAdvances(store: seq<Stored>, instance: string, start: nat, after: nat, through: nat, p: Progress,
                           limit: nat, a: nat, b: nat, page: Page)
    requires Increasing(store) && Pending(store, instance, start, after, through, p)
    requires Cut(store, after, a) && Cut(store, through, b) && a <= b
    requires limit == Min(through - after, HISTORY_PAGE_MAX) && HonestPage(store, limit, a, b, through, page)
    ensures Advances(store, instance, start, after, through, p, limit, page)
  {
    var k := Min(limit, b - a);
    AsRecordsLength(store[a..a + k]);
    if k == b - a {
      LastPage(store, instance, start, after, through, p, a, b);
    } else {
      MiddlePage(store, instance, start, after, through, p, a, b, k, page.next.value);
    }
  }

  lemma HonestAnswerAdvances(store: seq<Stored>, instance: string, start: nat, after: nat, through: nat, p: Progress,
                             limit: nat, answer: Option<Page>)
    requires Increasing(store) && Pending(store, instance, start, after, through, p)
    requires limit == Min(through - after, HISTORY_PAGE_MAX) && HonestAnswer(store, limit, after, through, answer)
    ensures answer.Some? && Advances(store, instance, start, after, through, p, limit, answer.value)
  {
    var a: nat, b: nat :| Cut(store, after, a) && Cut(store, through, b) && a <= b &&
                          answer.Some? && HonestPage(store, limit, a, b, through, answer.value);
    HonestPageAdvances(store, instance, start, after, through, p, limit, a, b, answer.value);
  }

  lemma {:induction false} AsRecordsLength(slice: seq<Stored>)
    ensures |AsRecords(slice)| == |slice|
  {
    if slice != [] {
      AsRecordsLength(slice[1..]);
    }
  }

  /** What a page may hold at most; the difference wraps around. */
  function Limit(after: nat, through: nat): (limit: nat)
    ensures limit <= HISTORY_PAGE_MAX && (limit < HISTORY_PAGE_MAX ==> (through - after - limit) % U64_MODULUS == 0)
    ensures after <= through <= U64_MAX ==> limit == Min(through - after, HISTORY_PAGE_MAX)
  {
    Min((through - after) % U64_MODULUS, HISTORY_PAGE_MAX)
  }

  /** The pages of an accepted read, as answered call by call: the frozen end
      stays, no page is larger than asked, each cursor moves on, and only the
      last page says it is complete. */
  ghost predicate Paged(export_: Export, start: nat, through: nat, pages: seq<Page>) {
    forall i: nat :: i < |pages| ==> PagedAt(export_, start, through, pages, i)
  }

  ghost function CursorOf(start: nat, pages: seq<Page>, i: nat): nat
    requires i <= |pages|
  {
    if i > 0 && pages[i - 1].next.Some? then pages[i - 1].next.value else start
  }

  ghost predicate PagedAt(export_: Export, start: nat, through: nat, pages: seq<Page>, i: nat)
    requires i < |pages|
  {
    var after := CursorOf(start, pages, i);
    var limit := Limit(after, through);
    && export_(i + 1, limit, Frozen(after, through)) == Some(pages[i])
    && pages[i].through == Some(through) && pages[i].records.Some? && |pages[i].records.value| <= limit
    && (i > 0 ==> pages[i - 1].complete != Some(true) && pages[i - 1].next.Some? && after > CursorOf(start, pages, i - 1))
  }

  ghost function AllRecords(pages: seq<Page>): seq<Record> {
    if pages == [] then []
    else AllRecords(pages[..|pages| - 1]) + if pages[|pages| - 1].records.Some? then pages[|pages| - 1].records.value else []
  }

  lemma {:induction false} ScanJoins(a: seq<Record>, b: seq<Record>, p: Progress, through: nat, instance: string)
    ensures var r := Scan(a, p, through, instance);
      Scan(a + b, p, through, instance) == if r.Some? then Scan(b, r.value, through, instance) else None
    decreases |a|
  {
    if a == [] {
      assert a + b == b;
    } else {
      assert (a + b)[0] == a[0] && (a + b)[1..] == a[1..] + b;
      if a[0].sequence.Some? && a[0].envelope.Some? {
        ScanJoins(a[1..], b, Advance(p, a[0].sequence.value, a[0].envelope.value, instance), through, instance);
      }
    }
  }

  lemma RecordsNext(pages: seq<Page>, page: Page, p: Progress, through: nat, instance: string, q: Progress)
    requires page.records.Some? && Scan(AllRecords(pages), p, through, instance) == Some(q)
    ensures Scan(AllRecords(pages + [page]), p, through, instance) == Scan(page.records.value, q, through, instance)
  {
    assert (pages + [page])[..|pages|] == pages;
    ScanJoins(AllRecords(pages), page.records.value, p, through, instance);
  }

  /** What a read has so far: its pages, their progress, and the cursor for the next one. */
  ghost predicate SoFar(export_: Export, instance: string, start: nat, through: nat, pages: seq<Page>, after: nat, p: Progress) {
    && Paged(export_, start, through, pages) && after == CursorOf(start, pages, |pages|)
    && (pages != [] ==>
          && pages[|pages| - 1].complete != Some(true) && pages[|pages| - 1].next.Some?
          && after > CursorOf(start, pages, |pages| - 1))
    && Scan(AllRecords(pages), Progress(start, None), through, instance) == Some(p)
  }

  /** The answer is a page that the read admits. */
  ghost predicate Admitted(export_: Export, call: nat, instance: string, after: nat, through: nat, p: Progress, page: Page, q: Progress) {
    && export_(call, Limit(after, through), Frozen(after, through)) == Some(page)
    && page.through == Some(through) && page.records.Some? && |page.records.value| <= Limit(after, through)
    && Scan(page.records.value, p, through, instance) == Some(q)
  }

  /** The call is answered with a page that the read admits. */
  ghost predicate Admissible(export_: Export, call: nat, instance: string, after: nat, through: nat, p: Progress) {
    var answer := export_(call, Limit(after, through), Frozen(after, through));
    && answer.Some? && answer.value.records.Some?
    && var scan := Scan(answer.value.records.value, p, through, instance);
    && scan.Some? && Admitted(export_, call, instance, after, through, p, answer.value, scan.value)
  }

  /** The result of a read rests on pages that were all admitted, the last of them complete. */
  ghost predicate RestsOn(export_: Export, instance: string, start: nat, w: Window, pages: seq<Page>) {
    && Paged(export_, start, w.through, pages)
    && (if pages == [] then start >= w.through else pages[|pages| - 1].complete == Some(true))
    && var scan := Scan(AllRecords(pages), Progress(start, None), w.through, instance);
    && scan.Some? && scan.value.newest == w.newest
  }

  ghost predicate MovesOn(page: Page, after: nat) {
    page.complete != Some(true) && page.next.Some? && page.next.value > after
  }

  /** The pages now end in one that completes the read or moves it on. */
  ghost predicate Extends(export_: Export, instance: string, start: nat, through: nat, pages: seq<Page>, after: nat,
                          page: Page, q: Progress)
  {
    && (page.complete == Some(true) ==> RestsOn(export_, instance, start, Window(through, q.newest), pages))
    && (MovesOn(page, after) ==> SoFar(export_, instance, start, through, pages, page.next.value, q))
  }

  lemma AdmittedNext(export_: Export, instance: string, start: nat, through: nat, pages: seq<Page>, after: nat, p: Progress,
                     page: Page, q: Progress)
    requires SoFar(export_, instance, start, through, pages, after, p)
    requires Admitted(export_, |pages| + 1, instance, after, through, p, page, q)
    ensures Extends(export_, instance, start, through, pages + [page], after, page, q)
  {
    var longer := pages + [page];
    RecordsNext(pages, page, Progress(start, None), through, instance, p);
    assert CursorOf(start, longer, |pages|) == after;
    forall i: nat | i < |longer|
      ensures PagedAt(export_, start, through, longer, i)
    {
      if i < |pages| {
        assert PagedAt(export_, start, through, pages, i);
        assert CursorOf(start, longer, i) == CursorOf(start, pages, i);
        assert i > 0 ==> CursorOf(start, longer, i - 1) == CursorOf(start, pages, i - 1);
      } else if i > 0 {
        assert CursorOf(start, longer, i - 1) == CursorOf(start, pages, i - 1);
      }
    }
  }

  /** Against an honest history, the rest of the window still fits the calls left. */
  ghost predicate OnCourse(store: seq<Stored>, instance: string, start: nat, after: nat, through: nat, p: Progress, calls: nat, window: nat) {
    Pending(store, instance, start, after, through, p) && through - after + calls * HISTORY_PAGE_MAX <= window
  }

  // ----- the paged read ------------------------------------------------------

  /** One call and its page; none when the call fails or the page is malformed, moved or too large. */
  method FetchPage(export_: Export, call: nat, after: nat, through: nat, last: nat, newest: Option<Newest>, instance: string)
    returns (page: Option<Page>, last': nat, newest': Option<Newest>)
    ensures page.Some? ==>
      Admitted(export_, call, instance, after, through, Progress(last, newest), page.value, Progress(last', newest'))
    ensures page == None ==> !Admissible(export_, call, instance, after, through, Progress(last, newest))
  {
    last', newest' := last, newest;
    var limit := Limit(after, through);
    var answer := export_(call, limit, Frozen(after, through));
    if answer == None || answer.value.through != Some(through) || answer.value.records == None
       || |answer.value.records.value| > limit {
      return None, last', newest';
    }
    var ok;
    ok, last', newest' := ScanPage(answer.value.records.value, last, newest, through, instance);
    page := if ok then answer else None;
  }

  /** An honest answer is admitted, and then completes the read or leaves it on course. */
  lemma HonestCall(store: seq<Stored>, export_: Export, instance: string, start: nat, after: nat, through: nat, p: Progress,
                   calls: nat, window: nat) returns (page: Page, q: Progress)
    requires Honest(store, export_, through) && OnCourse(store, instance, start, after, through, p, calls, window)
    ensures Admitted(export_, calls + 1, instance, after, through, p, page, q)
    ensures page.complete == Some(true) ==> IsNewest(store, instance, start, through, q.newest)
    ensures page.complete != Some(true) ==>
      && page.next.Some? && page.next.value > after
      && OnCourse(store, instance, start, page.next.value, through, q, calls + 1, window)
  {
    var limit := Limit(after, through);
    var answer := export_(calls + 1, limit, Frozen(after, through));
    HonestAnswerAdvances(store, instance, start, after, through, p, limit, answer);
    page := answer.value;
    q := Scan(page.records.value, p, through, instance).value;
  }

  /** Against an honest history a read on course gets a page that completes it or keeps it on course. */
  ghost predicate StaysOnCourse(store: seq<Stored>, export_: Export, instance: string, start: nat, after: nat, through: nat,
                                p: Progress, calls: nat, window: nat, page: Option<Page>, q: Progress)
  {
    Honest(store, export_, through) && OnCourse(store, instance, start, after, through, p, calls, window) ==>
      && page.Some?
      && (page.value.complete == Some(true) ==> IsNewest(store, instance, start, through, q.newest))
      && (page.value.complete != Some(true) ==>
            MovesOn(page.value, after) && OnCourse(store, instance, start, page.value.next.value, through, q, calls + 1, window))
  }

  lemma HonestFetch(store: seq<Stored>, export_: Export, instance: string, start: nat, after: nat, through: nat,
                    p: Progress, calls: nat, window: nat, page: Option<Page>, q: Progress)
    requires page.Some? ==> Admitted(export_, calls + 1, instance, after, through, p, page.value, q)
    requires page == None ==> !Admissible(export_, calls + 1, instance, after, through, p)
    ensures StaysOnCourse(store, export_, instance, start, after, through, p, calls, window, page, q)
  {
    if Honest(store, export_, through) && OnCourse(store, instance, start, after, through, p, calls, window) {
      var _, _ := HonestCall(store, export_, instance, start, after, through, p, calls, window);
    }
  }

  /** One more page of a read. */
  method ReadOne(export_: Export, instance: string, start: nat, after: nat, through: nat, calls: nat, last: nat, newest: Option<Newest>,
                 ghost pages: seq<Page>, ghost store: seq<Stored>, ghost window: nat)
    returns (page: Option<Page>, last': nat, newest': Option<Newest>)
    requires calls == |pages| && SoFar(export_, instance, start, through, pages, after, Progress(last, newest))
    ensures page.Some? ==> Extends(export_, instance, start, through, pages + [page.value], after, page.value, Progress(last', newest'))
    ensures StaysOnCourse(store, export_, instance, start, after, through, Progress(last, newest), calls, window,
                          page, Progress(last', newest'))
  {
    page, last', newest' := FetchPage(export_, calls + 1, after, through, last, newest, instance);
    if page.Some? {
      AdmittedNext(export_, instance, start, through, pages, after, Progress(last, newest), page.value, Progress(last', newest'));
    }
    HonestFetch(store, export_, instance, start, after, through, Progress(last, newest), calls, window,
                page, Progress(last', newest'));
  }

  /** The calls for one frozen end, as many as the window can need. */
  method ReadPages(export_: Export, instance: string, windowRecords: nat, start: nat, through: nat, ghost store: seq<Stored>)
    returns (r: Option<Window>, ghost pages: seq<Page>)
    requires start <= through <= start + windowRecords
    ensures r.Some? ==> r.value.through == through && RestsOn(export_, instance, start, r.value, pages)
    ensures Honest(store, export_, through) ==> r.Some? && IsNewest(store, instance, start, through, r.value.newest)
  {
    ghost var honest := Honest(store, export_, through);
    var after: nat, last: nat := start, start;
    var newest: Option<Newest> := None;
    var complete := after >= through;
    var bound := (windowRecords + HISTORY_PAGE_MAX - 1) / HISTORY_PAGE_MAX + 1;
    var calls := 0;
    pages := [];
    while calls < bound && !complete
      invariant 0 <= calls <= bound && calls == |pages|
      invariant complete ==> RestsOn(export_, instance, start, Window(through, newest), pages)
      invariant !complete ==> SoFar(export_, instance, start, through, pages, after, Progress(last, newest))
      invariant honest ==>
        if complete then IsNewest(store, instance, start, through, newest)
        else OnCourse(store, instance, start, after, through, Progress(last, newest), calls, windowRecords)
    {
      var page;
      page, last, newest := ReadOne(export_, instance, start, after, through, calls, last, newest, pages, store, windowRecords);
      if page == None {
        return None, pages;
      }
      pages := pages + [page.value];
      calls := calls + 1;
      complete := page.value.complete == Some(true);
      if page.value.next.Some? && !complete && page.value.next.value > after {
        after := page.value.next.value;
      } else {
        break;
      }
    }
    r := if complete then Some(Window(through, newest)) else None;
  }

  /** None when any call fails or any page is malformed, moved or incomplete;
      whatever is answered lies in the window and rests on the pages answered.
      Against an honest history the read always succeeds, within its page bound,
      with the direct scan. */
  method Read(export_: Export, instance: string, windowRecords: nat, ghost store: seq<Stored>, ghost end: nat)
    returns (r: Option<Window>, ghost pages: seq<Page>)
    requires 0 < windowRecords
    ensures r.Some? && r.value.newest.Some? ==>
      r.value.newest.value.sequence <= r.value.through < r.value.newest.value.sequence + windowRecords
    ensures r.Some? ==>
      RestsOn(export_, instance, if r.value.through < windowRecords then 0 else r.value.through - windowRecords, r.value, pages)
    ensures Honest(store, export_, end) ==>
      && r.Some? && r.value.through == end
      && IsNewest(store, instance, if end < windowRecords then 0 else end - windowRecords, end, r.value.newest)
  {
    pages := [];
    var probe := export_(0, 1, Everything);
    if probe == None || probe.value.through == None {
      return None, pages;
    }
    var through := probe.value.through.value;
    var start := Start(through, windowRecords);
    r, pages := ReadPages(export_, instance, windowRecords, start, through, store);
    ScanStaysInside'(AllRecords(pages), Progress(start, None), start, through, instance);
  }
}
