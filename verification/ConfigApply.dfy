/** Applying the generated configuration: render everything, write each file by rename, reload
    last. Templates are opaque, as is what a build reads from the database. */
module ConfigApply {
  import opened Text

  datatype Service = Postfix | Dovecot | OpenDKIM

  /** Every generated file; the set is fixed. */
  datatype File =
    | MainCf | MasterCf | VirtualDomains | VirtualMailboxes | VirtualAliases
    | SenderLogins | SenderTransport | SaslPasswd | TlsPolicy | SniMaps
    | DovecotConf | DovecotSql
    | OpenDKIMConf | KeyTable | SigningTable

  function Reader(f: File): Service {
    if f.DovecotConf? || f.DovecotSql? then Dovecot
    else if f.OpenDKIMConf? || f.KeyTable? || f.SigningTable? then OpenDKIM
    else Postfix
  }

  function FilesOf(v: Service): set<File> {
    set f: File | Reader(f) == v
  }

  type Files = map<File, string>

  /** What validation and reloading look at, and the rest. */
  datatype Data<T> = Data(primaryHostname: string, defaultTransport: string, emails: seq<string>, dkimEnabled: bool, rest: T) {
    predicate Valid() {
      primaryHostname != "" && defaultTransport != "" && forall e :: e in emails ==> '@' in e
    }
  }

  /** How a database state becomes data, and data a file. */
  datatype Renderer<!D, !T> = Renderer(build: D -> Option<Data<T>>, file: (Data<T>, File) -> Option<string>) {
    predicate Renders(db: D) {
      && build(db).Some?
      && build(db).value.Valid()
      && (forall f: File :: file(build(db).value, f).Some?)
    }

    /** The complete rendering of a database state. */
    function Rendering(db: D): Files
      requires Renders(db)
    {
      map f: File | true :: file(build(db).value, f).value
    }
  }

  datatype State = State(disk: Files, loaded: map<Service, Files>)

  /** The generated files a service would read now. */
  function Own(files: Files, service: Service): Files {
    map f | f in files && Reader(f) == service :: files[f]
  }

  /** One call: the database it sees, the order in which it meets the files, how many writes go
      through before one fails, whether services are reloaded, and which reloads fail. */
  datatype Call<!D> = Call(db: D, order: seq<File>, writes: nat, reload: bool, lost: set<Service>) {
    ghost predicate Valid() {
      NoDuplicates(order) && forall f: File :: f in order
    }

    predicate WritesAll() {
      writes >= |order|
    }
  }

  function Targets<T>(data: Data<T>): set<Service> {
    if data.dkimEnabled then {Postfix, Dovecot, OpenDKIM} else {Postfix, Dovecot}
  }

  // ---- the specification ----

  function Written(disk: Files, files: Files, order: seq<File>): Files {
    map f: File | f in disk || (f in order && f in files) :: if f in order && f in files then files[f] else disk[f]
  }

  predicate Reloads<D, T>(r: Renderer<D, T>, c: Call<D>, service: Service) {
    r.Renders(c.db) && c.WritesAll() && c.reload && service in Targets(r.build(c.db).value) && service !in c.lost
  }

  function Reached<D>(c: Call<D>): seq<File> {
    if c.WritesAll() then c.order else c.order[..c.writes]
  }

  function Disk<D, T>(r: Renderer<D, T>, disk: Files, c: Call<D>): Files {
    if r.Renders(c.db) then Written(disk, r.Rendering(c.db), Reached(c)) else disk
  }

  /** What services have loaded, after some of them have read the disk. */
  function Loaded(loaded: map<Service, Files>, disk: Files, reloaded: set<Service>): map<Service, Files> {
    map v: Service | v in loaded || v in reloaded :: if v in reloaded then Own(disk, v) else loaded[v]
  }

  function Reloaded<D, T>(r: Renderer<D, T>, c: Call<D>): set<Service> {
    set v: Service | Reloads(r, c, v)
  }

  function After<D, T>(r: Renderer<D, T>, s: State, c: Call<D>): State {
    State(Disk(r, s.disk, c), Loaded(s.loaded, Disk(r, s.disk, c), Reloaded(r, c)))
  }

  predicate Succeeds<D, T>(r: Renderer<D, T>, c: Call<D>) {
    r.Renders(c.db) && c.WritesAll() && forall v :: v in Targets(r.build(c.db).value) && c.reload ==> v !in c.lost
  }

  class Generator<D(!new), T(!new)> {
    const renderer: Renderer<D, T>
    var disk: Files
    var loaded: map<Service, Files>
    var events: seq<bool> // whether each call went well

    constructor (renderer: Renderer<D, T>)
      ensures this.renderer == renderer && disk == map[] && loaded == map[] && events == []
    {
      this.renderer := renderer;
      disk, loaded, events := map[], map[], [];
    }

    /** One service's files, in any order, up to the first template error. */
    method RenderService(data: Data<T>, v: Service) returns (out: Option<Files>)
      ensures out.Some? <==> forall f :: f in FilesOf(v) ==> renderer.file(data, f).Some?
      ensures out.Some? ==> out.value == map f | f in FilesOf(v) :: renderer.file(data, f).value
    {
      var left, acc := FilesOf(v), map[];
      while left != {}
        invariant left <= FilesOf(v) && acc.Keys == FilesOf(v) - left
        invariant forall f :: f in acc ==> Some(acc[f]) == renderer.file(data, f)
        decreases |left|
      {
        var f :| f in left;
        var body := renderer.file(data, f);
        if body.None? {
          return None;
        }
        acc := acc[f := body.value];
        left := left - {f};
      }
      assert forall f :: f in FilesOf(v) ==> f in acc;
      return Some(acc);
    }

    /** Nothing is written here: a rendering is complete or there is none. */
    method RenderAll(db: D) returns (data: Option<Data<T>>, files: Files)
      ensures data.Some? <==> renderer.Renders(db)
      ensures data.Some? ==> data == renderer.build(db) && files == renderer.Rendering(db)
    {
      files := map[];
      data := renderer.build(db);
      if data.None? || !data.value.Valid() {
        return None, files;
      }
      var pf := RenderService(data.value, Postfix);
      if pf.None? {
        return None, files;
      }
      var dc := RenderService(data.value, Dovecot);
      if dc.None? {
        return None, files;
      }
      var dk := RenderService(data.value, OpenDKIM);
      if dk.None? {
        return None, files;
      }
      assert forall f: File :: f in FilesOf(Reader(f));
      files := pf.value + dc.value + dk.value;
    }

    /** Writes file by file; stops at the first write that fails. */
    method WriteAll(files: Files, order: seq<File>, writes: nat) returns (ok: bool)
      requires forall f :: f in order ==> f in files
      modifies this`disk
      ensures ok <==> writes >= |order|
      ensures disk == Written(old(disk), files, if ok then order else order[..writes])
    {
      for k := 0 to |order|
        invariant k <= writes
        invariant disk == Written(old(disk), files, order[..k])
      {
        if k == writes {
          return false;
        }
        assert order[..k + 1] == order[..k] + [order[k]];
        disk := disk[order[k] := files[order[k]]];
      }
      assert order[..|order|] == order;
      return true;
    }

    method Reload(targets: seq<Service>, lost: set<Service>) returns (failed: bool)
      modifies this`loaded
      ensures failed <==> exists v :: v in targets && v in lost
      ensures loaded == Loaded(old(loaded), disk, set v | v in targets && v !in lost)
    {
      failed := false;
      for k := 0 to |targets|
        invariant failed <==> exists v :: v in targets[..k] && v in lost
        invariant loaded == Loaded(old(loaded), disk, set v | v in targets[..k] && v !in lost)
      {
        assert targets[..k + 1] == targets[..k] + [targets[k]];
        assert forall v :: v in targets[..k + 1] <==> v in targets[..k] || v == targets[k];
        if targets[k] in lost {
          failed := true;
        } else {
          loaded := loaded[targets[k] := Own(disk, targets[k])];
        }
      }
      assert targets[..|targets|] == targets;
    }

    method Apply(c: Call<D>) returns (ok: bool)
      requires c.Valid()
      modifies this
      ensures State(disk, loaded) == After(renderer, State(old(disk), old(loaded)), c)
      ensures !renderer.Renders(c.db) ==> disk == old(disk) && loaded == old(loaded)
      ensures ok <==> Succeeds(renderer, c)
      ensures events == old(events) + [ok]
    {
      var data, files := RenderAll(c.db);
      if data.None? {
        events := events + [false];
        return false;
      }
      var written := WriteAll(files, c.order, c.writes);
      if !written {
        events := events + [false];
        return false;
      }
      if !c.reload {
        events := events + [true];
        return true;
      }
      var targets := [Postfix, Dovecot];
      if data.value.dkimEnabled {
        targets := targets + [OpenDKIM];
      }
      assert forall v :: v in targets <==> v in Targets(data.value);
      assert Reloaded(renderer, c) == set v | v in targets && v !in c.lost;
      var failed := Reload(targets, c.lost);
      events := events + [!failed];
      return !failed;
    }
  }

  // ---- runs ----

  function Run<D, T>(r: Renderer<D, T>, s: State, calls: seq<Call<D>>): State
    decreases |calls|
  {
    if calls == [] then s
    else After(r, Run(r, s, calls[..|calls| - 1]), calls[|calls| - 1])
  }

  /** The last call that reloaded a service. */
  function LastReload<D, T>(r: Renderer<D, T>, calls: seq<Call<D>>, v: Service): (k: Option<nat>)
    ensures k.Some? ==> k.value < |calls| && Reloads(r, calls[k.value], v)
    decreases |calls|
  {
    if calls == [] then None
    else if Reloads(r, calls[|calls| - 1], v) then Some(|calls| - 1)
    else LastReload(r, calls[..|calls| - 1], v)
  }

  /** The last call whose writes got as far as a file. */
  function LastWrite<D, T>(r: Renderer<D, T>, calls: seq<Call<D>>, f: File): (k: Option<nat>)
    ensures k.Some? ==> k.value < |calls| && r.Renders(calls[k.value].db)
    decreases |calls|
  {
    if calls == [] then None
    else if r.Renders(calls[|calls| - 1].db) && f in Reached(calls[|calls| - 1]) then Some(|calls| - 1)
    else LastWrite(r, calls[..|calls| - 1], f)
  }

  lemma FullWrite<D, T>(r: Renderer<D, T>, disk: Files, c: Call<D>)
    requires c.Valid() && r.Renders(c.db) && c.WritesAll()
    ensures Disk(r, disk, c) == r.Rendering(c.db)
  {
  }

  /** Over any calls, failing anywhere, in any order of files: each service has loaded either what
      it had at the start or one complete rendering of one database state, that of the last call
      that wrote every file and reloaded it. */
  lemma {:induction false} LoadedIsWhole<D, T>(r: Renderer<D, T>, s: State, calls: seq<Call<D>>, v: Service)
    requires forall c :: c in calls ==> c.Valid()
    ensures var loaded, k := Run(r, s, calls).loaded, LastReload(r, calls, v);
            && (k.Some? ==> v in loaded && loaded[v] == Own(r.Rendering(calls[k.value].db), v))
            && (k.None? ==> (v in loaded <==> v in s.loaded) && (v in loaded ==> loaded[v] == s.loaded[v]))
    decreases |calls|
  {
    if calls != [] {
      var n := |calls| - 1;
      LoadedIsWhole(r, s, calls[..n], v);
      if Reloads(r, calls[n], v) {
        FullWrite(r, Run(r, s, calls[..n]).disk, calls[n]);
      }
    }
  }

  /** And each file on disk is always one whole version, that of the last call that got to it,
      though after a failed write they need not all be of one call. */
  lemma {:induction false} FilesAreWhole<D, T>(r: Renderer<D, T>, s: State, calls: seq<Call<D>>, f: File)
    requires forall c :: c in calls ==> c.Valid()
    ensures var disk, k := Run(r, s, calls).disk, LastWrite(r, calls, f);
            && (k.Some? ==> f in disk && disk[f] == r.Rendering(calls[k.value].db)[f])
            && (k.None? ==> (f in disk <==> f in s.disk) && (f in disk ==> disk[f] == s.disk[f]))
    decreases |calls|
  {
    if calls != [] {
      FilesAreWhole(r, s, calls[..|calls| - 1], f);
    }
  }

  // ---- what one call does ----

  /** A state renders exactly if it can be read, has a hostname and a default transport and no
      mailbox without an `@`, and every template goes through. */
  lemma RendersExactly<D, T>(r: Renderer<D, T>, db: D)
    ensures r.Renders(db) <==>
            match r.build(db)
            case None => false
            case Some(d) =>
              && d.primaryHostname != "" && d.defaultTransport != ""
              && (forall e :: e in d.emails ==> '@' in e)
              && (forall f: File :: r.file(d, f).Some?)
  {
  }

  /** Postfix and Dovecot load the new files exactly if all of them were written, services are to be
      reloaded, and their own reload works; OpenDKIM if, besides, DKIM is on. Otherwise a service
      keeps what it had. */
  lemma ReloadedExactly<D, T>(r: Renderer<D, T>, s: State, c: Call<D>, v: Service)
    requires c.Valid()
    ensures var loaded := After(r, s, c).loaded;
            if r.Renders(c.db) && c.WritesAll() && c.reload && v !in c.lost && (v == OpenDKIM ==> r.build(c.db).value.dkimEnabled)
            then v in loaded && loaded[v] == Own(r.Rendering(c.db), v)
            else (v in loaded <==> v in s.loaded) && (v in loaded ==> loaded[v] == s.loaded[v])
  {
    if r.Renders(c.db) && c.WritesAll() {
      FullWrite(r, s.disk, c);
    }
  }

  /** A call reports success exactly if its state renders, every write works, and no service that is
      to be reloaded fails to. */
  lemma SucceedsExactly<D, T>(r: Renderer<D, T>, c: Call<D>)
    ensures Succeeds(r, c) <==>
            && r.Renders(c.db) && c.WritesAll()
            && (c.reload ==> Postfix !in c.lost && Dovecot !in c.lost)
            && (c.reload && r.build(c.db).value.dkimEnabled ==> OpenDKIM !in c.lost)
  {
  }

  /** So a call that reports success has left the files of one state, and every service it reloads
      on them. */
  lemma SuccessIsComplete<D, T>(r: Renderer<D, T>, s: State, c: Call<D>)
    requires c.Valid() && Succeeds(r, c)
    ensures r.Renders(c.db) && After(r, s, c).disk == r.Rendering(c.db)
    ensures forall v: Service :: c.reload && (v == OpenDKIM ==> r.build(c.db).value.dkimEnabled) ==>
              v in After(r, s, c).loaded && After(r, s, c).loaded[v] == Own(After(r, s, c).disk, v)
  {
    FullWrite(r, s.disk, c);
    forall v: Service | c.reload && (v == OpenDKIM ==> r.build(c.db).value.dkimEnabled)
      ensures v in After(r, s, c).loaded && After(r, s, c).loaded[v] == Own(After(r, s, c).disk, v)
    {
      ReloadedExactly(r, s, c, v);
    }
  }

  /** A service reads its own files and no others. */
  lemma OwnExactly(files: Files, v: Service, f: File)
    ensures f in Own(files, v) <==> f in files && f in FilesOf(v)
    ensures f in Own(files, v) ==> Own(files, v)[f] == files[f]
  {
  }

  /** Ten files are Postfix's, two Dovecot's, three OpenDKIM's. */
  lemma FilesOfServices(f: File)
    ensures f in FilesOf(Dovecot) <==> f in {DovecotConf, DovecotSql}
    ensures f in FilesOf(OpenDKIM) <==> f in {OpenDKIMConf, KeyTable, SigningTable}
    ensures f in FilesOf(Postfix) <==> f in {MainCf, MasterCf, VirtualDomains, VirtualMailboxes, VirtualAliases,
                                             SenderLogins, SenderTransport, SaslPasswd, TlsPolicy, SniMaps}
  {
  }
}
