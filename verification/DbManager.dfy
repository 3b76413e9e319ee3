/** Which worker serves which network: workers are shared by file and counted by label. */
module DbManager {
  import opened DbWorker

  /** The file of each label. */
  function FilesOf(servers: map<string, DBaccess>): map<string, string> {
    map l | l in servers :: servers[l].datafile
  }

  /** The labels that use a file. */
  function Users(files: map<string, string>, file: string): set<string> {
    set l | l in files && files[l] == file
  }

  /** What the manager keeps about the worker of a file. */
  datatype Entry = Entry(worker: DBaccess, servers: int, running: bool)

  /** Every label is mapped to the one worker of its file; the main file has no such worker. */
  predicate Mapped(servers: map<string, DBaccess>, entries: map<string, Entry>, main: string) {
    && (forall l :: l in servers ==>
          servers[l].datafile in entries && entries[servers[l].datafile].worker == servers[l])
    && (forall f :: f in entries ==> entries[f].worker.datafile == f && f != main)
  }

  /** Each worker runs, and is counted by the labels that use it, of which there is one at least. */
  predicate Counted(files: map<string, string>, entries: map<string, Entry>) {
    forall f :: f in entries ==>
      entries[f].running && entries[f].servers == |Users(files, f)| && entries[f].servers >= 1
  }

  predicate Good(servers: map<string, DBaccess>, entries: map<string, Entry>, main: string) {
    Mapped(servers, entries, main) && Counted(FilesOf(servers), entries)
  }

  lemma UsersWithout(files: map<string, string>, server: string, file: string)
    requires server in files
    ensures |Users(files - {server}, file)| == |Users(files, file)| - if files[server] == file then 1 else 0
  {
    assert Users(files - {server}, file) == Users(files, file) - {server};
  }

  lemma UsersWith(files: map<string, string>, server: string, file: string, other: string)
    requires server !in files
    ensures |Users(files[server := file], other)| == |Users(files, other)| + if file == other then 1 else 0
  {
    assert Users(files[server := file], other) == Users(files, other) + if file == other then {server} else {};
  }

  lemma NoUsers(files: map<string, string>, file: string)
    requires |Users(files, file)| == 0
    ensures forall l :: l in files ==> files[l] != file
  {
    assert forall l :: l in files && files[l] == file ==> l in Users(files, file);
  }

  function Without(entries: map<string, Entry>, file: string): map<string, Entry>
    requires file in entries
  {
    var e := entries[file];
    if e.servers == 1 then entries - {file} else entries[file := e.(servers := e.servers - 1)]
  }

  function With(entries: map<string, Entry>, file: string, w: DBaccess): map<string, Entry> {
    entries[file := Entry(w, if file in entries then entries[file].servers + 1 else 1, true)]
  }

  lemma CountedWithout(files: map<string, string>, entries: map<string, Entry>, server: string)
    requires server in files && files[server] in entries && Counted(files, entries)
    ensures Counted(files - {server}, Without(entries, files[server]))
  {
    forall f ensures |Users(files - {server}, f)| == |Users(files, f)| - if f == files[server] then 1 else 0 {
      UsersWithout(files, server, f);
    }
    hide Users;
  }

  lemma CountedWith(files: map<string, string>, entries: map<string, Entry>, server: string, file: string, w: DBaccess)
    requires server !in files && Counted(files, entries)
    requires file !in entries ==> forall l :: l in files ==> files[l] != file
    ensures Counted(files[server := file], With(entries, file, w))
  {
    forall f ensures |Users(files[server := file], f)| == |Users(files, f)| + if f == file then 1 else 0 {
      UsersWith(files, server, file, f);
    }
    if file !in entries {
      assert Users(files, file) == {};
    }
    hide Users;
  }

  lemma MappedWithout(servers: map<string, DBaccess>, entries: map<string, Entry>, main: string, server: string)
    requires Mapped(servers, entries, main) && server in servers
    requires Counted(FilesOf(servers), entries)
    ensures Mapped(servers - {server}, Without(entries, servers[server].datafile), main)
  {
    var files, file := FilesOf(servers), servers[server].datafile;
    if entries[file].servers == 1 {
      UsersWithout(files, server, file);
      NoUsers(files - {server}, file);
      assert forall l :: l in servers - {server} ==> l in files - {server} && files[l] == servers[l].datafile;
    }
    hide Users;
  }

  /** A label given up: its worker counts one less, and goes with the last. */
  lemma GoodRelease(servers: map<string, DBaccess>, entries: map<string, Entry>, main: string, server: string)
    requires Good(servers, entries, main) && server in servers
    ensures Good(servers - {server}, Without(entries, servers[server].datafile), main)
  {
    assert FilesOf(servers - {server}) == FilesOf(servers) - {server};
    assert FilesOf(servers)[server] == servers[server].datafile;
    MappedWithout(servers, entries, main, server);
    CountedWithout(FilesOf(servers), entries, server);
    hide Users, Without, FilesOf, Counted;
  }

  /** A label taken up by the worker of a file, which is new or counts one more. */
  lemma GoodAdd(servers: map<string, DBaccess>, entries: map<string, Entry>, main: string, server: string, w: DBaccess)
    requires Good(servers - {server}, entries, main) && w.datafile != main
    requires w.datafile in entries ==> entries[w.datafile].worker == w
    ensures Good(servers[server := w], With(entries, w.datafile, w), main)
  {
    var rest := servers - {server};
    assert servers[server := w] == rest[server := w];
    assert FilesOf(rest[server := w]) == FilesOf(rest)[server := w.datafile];
    CountedWith(FilesOf(rest), entries, server, w.datafile, w);
    MappedWith(rest, entries, main, server, w);
    hide Users, With, FilesOf, Counted, Mapped;
  }

  lemma MappedWith(servers: map<string, DBaccess>, entries: map<string, Entry>, main: string, server: string,
                   w: DBaccess)
    requires Mapped(servers, entries, main) && w.datafile != main
    requires w.datafile in entries ==> entries[w.datafile].worker == w
    ensures Mapped(servers[server := w], With(entries, w.datafile, w), main)
  {
  }

  /** A label whose worker has given it up while it is still mapped to it. */
  lemma NotGood(servers: map<string, DBaccess>, entries: map<string, Entry>, main: string, server: string)
    requires Good(servers - {server}, entries, main) && server in servers
    ensures !Good(servers, entries, main)
  {
    var files := FilesOf(servers);
    assert FilesOf(servers - {server}) == files - {server};
    UsersWithout(files, server, files[server]);
  }

  /** A worker runs for exactly the files that some label is configured for, one for each. */
  lemma OneWorkerPerFile(servers: map<string, DBaccess>, entries: map<string, Entry>, main: string)
    requires Good(servers, entries, main)
    ensures forall f :: f in entries <==> exists l :: l in FilesOf(servers) && FilesOf(servers)[l] == f
    ensures forall k, l :: k in servers && l in servers ==>
      (servers[k] == servers[l] <==> servers[k].datafile == servers[l].datafile)
  {
    var files := FilesOf(servers);
    forall f | f in entries ensures exists l :: l in files && files[l] == f {
      assert |Users(files, f)| >= 1;
      var l :| l in Users(files, f);
      assert l in files && files[l] == f;
    }
  }

  lemma FilesWithout(servers: map<string, DBaccess>, server: string)
    ensures FilesOf(servers - {server}) == FilesOf(servers) - {server}
  {
  }

  lemma FilesWith(servers: map<string, DBaccess>, server: string, w: DBaccess)
    ensures FilesOf(servers[server := w]) == FilesOf(servers)[server := w.datafile]
  {
  }

  class DBManager {
    const datafile: string
    const engine: Engine
    const mainDB: DBaccess
    var serverDBMap: map<string, DBaccess>
    var fileDBMap: map<string, DBaccess>
    /** What `fileDBMap` and its workers hold, as a value. */
    ghost var entries: map<string, Entry>

    ghost predicate Shows()
      reads this`fileDBMap, this`entries
      reads fileDBMap.Values`servers, fileDBMap.Values`alive, fileDBMap.Values`stopping
    {
      && fileDBMap.Keys == entries.Keys
      && forall f :: f in fileDBMap ==>
        && entries[f].worker == fileDBMap[f]
        && fileDBMap[f].servers == entries[f].servers
        && entries[f].running == (fileDBMap[f].alive && !fileDBMap[f].stopping)
    }

    ghost predicate Valid()
      reads this, fileDBMap.Values, mainDB
    {
      && Shows() && Good(serverDBMap, entries, datafile)
      && mainDB.datafile == datafile && mainDB.alive && !mainDB.stopping
    }

    /** The files as configured: a label without an entry uses the main database. */
    ghost function Files(): map<string, string>
      reads this`serverDBMap
    {
      FilesOf(serverDBMap)
    }

    constructor (datafile: string, engine: Engine, mainDB: DBaccess)
      requires mainDB.alive && !mainDB.stopping && mainDB.datafile == datafile
      ensures Valid() && Files() == map[] && this.mainDB == mainDB && this.datafile == datafile
    {
      this.datafile, this.engine, this.mainDB := datafile, engine, mainDB;
      serverDBMap, fileDBMap, entries := map[], map[], map[];
    }

    /** The label's worker, or the main one; running, on the file configured for the label. */
    method GetDB(server: string) returns (w: DBaccess)
      ensures w == if server in serverDBMap then serverDBMap[server] else mainDB
      ensures Valid() ==> w.alive && !w.stopping
      ensures Valid() ==> w.datafile == if server in Files() then Files()[server] else datafile
    {
      w := if server in serverDBMap then serverDBMap[server] else mainDB;
    }

    /** One label less on a worker, which is told to stop with the last. */
    method Release(w: DBaccess)
      requires Shows() && w.datafile in fileDBMap && fileDBMap[w.datafile] == w && w.alive && !w.stopping && w != mainDB
      requires forall f :: f in fileDBMap ==> fileDBMap[f].datafile == f
      modifies w`servers, w`stopping, w`queue, this`fileDBMap, this`entries
      ensures Shows() && entries == Without(old(entries), w.datafile)
      ensures w.stopping <==> old(w.servers) == 1
    {
      w.servers := w.servers - 1;
      entries := Without(entries, w.datafile);
      if w.servers == 0 {
        w.Stop();
        fileDBMap := fileDBMap - {w.datafile};
      }
    }

    /** What holds of the two maps even after a call has failed. */
    ghost predicate Tidy()
      reads this, fileDBMap.Values
    {
      Shows() && forall f :: f in fileDBMap ==> fileDBMap[f].datafile == f && f != datafile
    }

    method DelServer(server: string)
      requires Tidy() && (server in serverDBMap ==> Valid())
      modifies this`serverDBMap, this`fileDBMap, this`entries
      modifies fileDBMap.Values`servers, fileDBMap.Values`stopping, fileDBMap.Values`queue
      ensures Tidy() && (old(Valid()) ==> Valid())
      ensures Files() == old(Files()) - {server}
      ensures fileDBMap.Values <= old(fileDBMap.Values)
    {
      FilesWithout(serverDBMap, server);
      if server in serverDBMap {
        GoodRelease(serverDBMap, entries, datafile, server);
        var w := serverDBMap[server];
        serverDBMap := serverDBMap - {server};
        hide FilesOf, Without;
        Release(w);
      } else {
        assert serverDBMap - {server} == serverDBMap;
      }
    }

    /** One label more on the worker of a file. */
    method Join(w: DBaccess, server: string)
      requires Tidy() && w.datafile in fileDBMap && fileDBMap[w.datafile] == w
      modifies this`serverDBMap, this`entries, w`servers
      ensures Tidy() && serverDBMap == old(serverDBMap)[server := w]
      ensures w.alive == old(w.alive) && (w.alive && !w.stopping ==> entries == With(old(entries), w.datafile, w))
    {
      w.servers := w.servers + 1;
      entries := entries[w.datafile := Entry(w, w.servers, w.alive && !w.stopping)];
      serverDBMap := serverDBMap[server := w];
    }

    /** A new worker for a file that had none: it is kept under its file before it is started. */
    method Launch(file: string, builds: bool, starts: bool, contents: Db) returns (raised: bool)
      requires Tidy() && file !in fileDBMap && file != datafile
      modifies this`fileDBMap, this`entries
      ensures Tidy() && (raised <==> !builds || !starts)
      ensures fileDBMap.Keys == old(fileDBMap).Keys + if builds then {file} else {}
      ensures !builds ==> fileDBMap == old(fileDBMap) && entries == old(entries)
      ensures builds ==> fresh(fileDBMap[file]) && fileDBMap == old(fileDBMap)[file := fileDBMap[file]]
      ensures builds ==> fileDBMap[file].servers == 1 && fileDBMap[file].alive == starts
      ensures builds ==> entries == old(entries)[file := Entry(fileDBMap[file], 1, starts)]
    {
      if !builds {
        return true;
      }
      var w := new DBaccess(file, engine, contents);
      fileDBMap := fileDBMap[file := w];
      entries := entries[file := Entry(w, 1, starts)];
      raised := w.Start(starts);
    }

    /** The label's old worker, if any, loses it, though the label stays mapped for now. */
    method GiveUp(server: string)
      requires Valid()
      modifies this`fileDBMap, this`entries
      modifies fileDBMap.Values`servers, fileDBMap.Values`stopping, fileDBMap.Values`queue
      ensures Tidy() && Good(serverDBMap - {server}, entries, datafile)
      ensures mainDB.datafile == datafile && mainDB.alive && !mainDB.stopping
      ensures fileDBMap.Values <= old(fileDBMap.Values)
      ensures forall f :: f in fileDBMap <==>
        && f in old(fileDBMap)
        && !(server in serverDBMap && serverDBMap[server].datafile == f && serverDBMap[server].stopping)
      ensures server in serverDBMap ==> (serverDBMap[server].stopping <==> old(serverDBMap[server].servers) == 1)
    {
      if server in serverDBMap {
        GoodRelease(serverDBMap, entries, datafile, server);
        hide Good, Counted, FilesOf;
        Release(serverDBMap[server]);
      } else {
        assert serverDBMap - {server} == serverDBMap;
      }
    }

    /** A worker that is kept under its file but was never started. */
    ghost predicate Stillborn(file: string)
      reads this`fileDBMap, this`entries, fileDBMap.Values
    {
      && file in fileDBMap && !fileDBMap[file].alive && fileDBMap[file].servers == 1
      && file in entries && !entries[file].running
    }

    /** The worker of a file, made and started if there is none, takes up a label. */
    method TakeUp(server: string, file: string, builds: bool, starts: bool, contents: Db) returns (raised: bool)
      requires Tidy() && file != datafile
      modifies this`serverDBMap, this`fileDBMap, this`entries, fileDBMap.Values`servers
      ensures Tidy() && (raised <==> file !in old(fileDBMap) && (!builds || !starts))
      ensures raised ==> serverDBMap == old(serverDBMap)
      ensures raised && builds ==> Stillborn(file)
      ensures raised && !builds ==> entries == old(entries)
      ensures !raised ==> file in fileDBMap && serverDBMap == old(serverDBMap)[server := fileDBMap[file]]
      ensures !raised && (file in old(entries) ==> old(entries)[file].running) ==>
        entries == With(old(entries), file, fileDBMap[file])
      ensures file in old(fileDBMap) ==> fileDBMap == old(fileDBMap)
      ensures fresh(fileDBMap.Values - old(fileDBMap.Values))
    {
      raised := false;
      if file in fileDBMap {
        Join(fileDBMap[file], server);
      } else {
        raised := Launch(file, builds, starts, contents);
        if !raised {
          serverDBMap := serverDBMap[server := fileDBMap[file]];
        }
      }
    }

    /** A mapped label's old worker loses it; the worker of the other file takes it up. */
    method Move(server: string, file: string, builds: bool, starts: bool, contents: Db) returns (raised: bool)
      requires Valid() && file != datafile && server in serverDBMap && serverDBMap[server].datafile != file
      modifies this`serverDBMap, this`fileDBMap, this`entries
      modifies fileDBMap.Values`servers, fileDBMap.Values`stopping, fileDBMap.Values`queue
      ensures Tidy() && (raised <==> file !in old(fileDBMap) && (!builds || !starts))
      ensures raised ==> serverDBMap == old(serverDBMap) && !Good(serverDBMap, entries, datafile)
      ensures raised ==> (serverDBMap[server].stopping <==> old(serverDBMap[server].servers) == 1)
      ensures raised && builds ==> Stillborn(file)
      ensures mainDB.datafile == datafile && mainDB.alive && !mainDB.stopping
      ensures !raised ==> file in fileDBMap && serverDBMap == old(serverDBMap)[server := fileDBMap[file]]
      ensures !raised ==> Good(serverDBMap, entries, datafile)
      ensures fresh(fileDBMap.Values - old(fileDBMap.Values))
    {
      hide *;
      GiveUp(server);
      RunningEntries();
      ghost var before := entries;
      raised := TakeUp(server, file, builds, starts, contents);
      Outcome(old(serverDBMap), before, server, file, builds, raised);
    }

    lemma RunningEntries()
      requires Tidy()
      ensures entries.Keys == fileDBMap.Keys
      ensures forall f :: f in entries ==> entries[f].worker.datafile == f && entries[f].worker == fileDBMap[f]
    {
    }

    /** What taking a label up has made of maps that were exact without it. */
    lemma Outcome(servers: map<string, DBaccess>, before: map<string, Entry>, server: string, file: string,
                  builds: bool, raised: bool)
      requires Tidy() && Good(servers - {server}, before, datafile) && file != datafile
      requires raised ==> serverDBMap == servers && if builds then Stillborn(file) else entries == before
      requires !raised ==> file in fileDBMap && serverDBMap == servers[server := fileDBMap[file]]
      requires !raised && (file in before ==> before[file].running) ==> entries == With(before, file, fileDBMap[file])
      requires !raised && file in before ==> before[file].worker == fileDBMap[file]
      ensures Good(serverDBMap, entries, datafile) <==> !(raised && (server in servers || builds))
    {
      if raised && builds {
        assert file in entries && !entries[file].running;
      } else if raised {
        if server in servers {
          NotGood(servers, before, datafile, server);
        } else {
          assert servers - {server} == servers;
        }
      } else {
        GoodAdd(servers, before, datafile, server, fileDBMap[file]);
        hide Mapped;
      }
    }

    /** A label that is not mapped is taken up by the worker of its file. */
    method AddNew(server: string, file: string, builds: bool, starts: bool, contents: Db) returns (raised: bool)
      requires Tidy() && file != datafile && server !in serverDBMap
      modifies this`serverDBMap, this`fileDBMap, this`entries, fileDBMap.Values`servers
      ensures Tidy() && (raised <==> file !in old(fileDBMap) && (!builds || !starts))
      ensures raised ==> serverDBMap == old(serverDBMap)
      ensures raised && builds ==> Stillborn(file)
      ensures !raised ==> file in fileDBMap && serverDBMap == old(serverDBMap)[server := fileDBMap[file]]
      ensures file in old(fileDBMap) ==> fileDBMap == old(fileDBMap)
      ensures old(Good(serverDBMap, entries, datafile)) ==>
        (Good(serverDBMap, entries, datafile) <==> !(raised && builds))
      ensures fresh(fileDBMap.Values - old(fileDBMap.Values))
    {
      hide *;
      RunningEntries();
      assert serverDBMap - {server} == serverDBMap;
      raised := TakeUp(server, file, builds, starts, contents);
      if old(Good(serverDBMap, entries, datafile)) {
        Outcome(old(serverDBMap), old(entries), server, file, builds, raised);
      }
    }

    method MoveOrAdd(server: string, file: string, builds: bool, starts: bool, contents: Db) returns (raised: bool)
      requires Tidy() && (server in serverDBMap ==> Valid() && serverDBMap[server].datafile != file) && file != datafile
      modifies this`serverDBMap, this`fileDBMap, this`entries
      modifies fileDBMap.Values`servers, fileDBMap.Values`stopping, fileDBMap.Values`queue
      ensures Tidy() && (raised <==> file !in old(fileDBMap) && (!builds || !starts))
      ensures raised ==> serverDBMap == old(serverDBMap)
      ensures !raised ==> file in fileDBMap && fileDBMap[file].datafile == file
      ensures !raised ==> serverDBMap == old(serverDBMap)[server := fileDBMap[file]]
      ensures old(Valid()) ==> (Valid() <==> !(raised && (server in old(serverDBMap) || (builds && !starts))))
      ensures raised && server in old(serverDBMap) ==>
        (serverDBMap[server].stopping <==> old(serverDBMap[server].servers) == 1)
      ensures raised && builds ==> Stillborn(file)
      ensures file in old(fileDBMap) && server !in old(serverDBMap) ==> fileDBMap == old(fileDBMap)
      ensures fresh(fileDBMap.Values - old(fileDBMap.Values))
    {
      hide Good, FilesOf;
      if server in serverDBMap {
        raised := Move(server, file, builds, starts, contents);
      } else {
        raised := AddNew(server, file, builds, starts, contents);
      }
    }

    /** Adds a label, or moves it to another file. `builds` and `starts` are the outcomes of making
        a worker and of starting its thread, if one has to be made. All is kept exactly, unless the
        call raises for a label that is mapped, whose old worker has lost the label but not the
        mapping, or because a worker cannot be started, which is then kept without running. */
    method AddServer(server: string, file: string, builds: bool, starts: bool, contents: Db) returns (raised: bool)
      requires Tidy() && (server in serverDBMap ==> Valid())
      modifies this`serverDBMap, this`fileDBMap, this`entries
      modifies fileDBMap.Values`servers, fileDBMap.Values`stopping, fileDBMap.Values`queue
      ensures Tidy() && (raised <==> file != datafile && file !in old(fileDBMap) && (!builds || !starts))
      ensures raised ==> serverDBMap == old(serverDBMap)
      ensures Files() == (if raised then old(Files())
                          else if file == datafile then old(Files()) - {server}
                          else old(Files())[server := file])
      ensures old(Valid()) ==> (Valid() <==> !(raised && (server in old(serverDBMap) || (builds && !starts))))
      ensures raised && server in old(serverDBMap) ==>
        (serverDBMap[server].stopping <==> old(serverDBMap[server].servers) == 1)
      ensures raised && builds ==> Stillborn(file)
      ensures !raised && server !in old(serverDBMap) && file in old(fileDBMap) ==>
        server in serverDBMap && serverDBMap[server] == old(fileDBMap[file])
      ensures fresh(fileDBMap.Values - old(fileDBMap.Values))
    {
      if file == datafile {
        hide Good;
        DelServer(server);
        return false;
      }
      if server in serverDBMap && serverDBMap[server].datafile == file {
        KnownFile(server);
        hide *;
        return false;
      }
      raised := MoveOrAdd(server, file, builds, starts, contents);
      hide *;
      if !raised {
        FilesWith(old(serverDBMap), server, fileDBMap[file]);
      }
    }

    lemma KnownFile(server: string)
      requires Valid() && server in serverDBMap
      ensures serverDBMap[server].datafile in fileDBMap
      ensures Files()[server := serverDBMap[server].datafile] == Files()
    {
    }

    lemma AllMapped()
      requires Valid()
      ensures fileDBMap.Values == serverDBMap.Values
      ensures forall w :: w in serverDBMap.Values ==> w.alive
    {
      OneWorkerPerFile(serverDBMap, entries, datafile);
      forall f | f in fileDBMap ensures fileDBMap[f] in serverDBMap.Values {
        var l :| l in FilesOf(serverDBMap) && FilesOf(serverDBMap)[l] == f;
        assert serverDBMap[l] == fileDBMap[f];
      }
    }

    lemma OneLabel(server: string, file: string)
      requires Valid() && Files() == map[server := file]
      ensures server in serverDBMap && serverDBMap[server].datafile == file && serverDBMap[server].servers == 1
      ensures fileDBMap.Keys == {file}
    {
      OneWorkerPerFile(serverDBMap, entries, datafile);
      assert server in Files();
      assert Users(Files(), file) == {server};
    }

    /** Every worker is told to stop. */
    method Shutdown()
      requires Valid()
      modifies this`serverDBMap, this`fileDBMap, this`entries, mainDB`stopping, mainDB`queue
      modifies fileDBMap.Values`stopping, fileDBMap.Values`queue
      ensures serverDBMap == map[] && fileDBMap == map[]
      ensures forall w :: w in old(fileDBMap.Values) ==> w.stopping
      ensures mainDB.stopping
    {
      AllMapped();
      assert mainDB.alive;
      hide *;
      StopAll(serverDBMap.Values);
      serverDBMap, fileDBMap, entries := map[], map[], map[];
      mainDB.Stop();
    }
  }

  /** The first exception, on an example: a network alone on its file moves to a file for which no
      worker can be made. Its queries still go to its old worker, which has been told to stop. */
  method MoveThatFails(engine: Engine, mainDB: DBaccess, contents: Db) returns (w: DBaccess)
    requires mainDB.alive && !mainDB.stopping && mainDB.datafile == "main.db"
    ensures w.datafile == "a.db" && w.stopping
  {
    var manager := new DBManager("main.db", engine, mainDB);
    var raised := manager.AddServer("net", "a.db", true, true, contents);
    assert !raised;
    manager.OneLabel("net", "a.db");
    assert "b.db" !in manager.fileDBMap;
    raised := manager.AddServer("net", "b.db", false, false, contents);
    assert raised;
    w := manager.serverDBMap["net"];
  }

  /** The second: for a network that was never mapped, a worker is made that cannot be started. The
      next network on that file is added without an error, and gets the worker that never runs. */
  method StartThatFails(engine: Engine, mainDB: DBaccess, contents: Db) returns (w: DBaccess)
    requires mainDB.alive && !mainDB.stopping && mainDB.datafile == "main.db"
    ensures w.datafile == "a.db" && !w.alive
  {
    var manager := new DBManager("main.db", engine, mainDB);
    var raised := manager.AddServer("one", "a.db", true, false, contents);
    assert raised;
    raised := manager.AddServer("two", "a.db", true, true, contents);
    assert !raised;
    w := manager.GetDB("two");
  }

  method StopAll(workers: set<DBaccess>)
    requires forall w :: w in workers ==> w.alive
    modifies workers`stopping, workers`queue
    ensures forall w :: w in workers ==> w.stopping
  {
    hide *;
    var left := workers;
    while left != {}
      invariant left <= workers
      invariant forall w :: w in workers - left ==> w.stopping
      decreases left
    {
      var w :| w in left;
      w.Stop();
      left := left - {w};
    }
  }
}
