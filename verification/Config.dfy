/**
 The fleet's configuration (packages/gateway/src/db/settings.ts,
 packages/gateway/src/db/templates.ts, packages/gateway/src/db/node-config.ts) and a node's
 copy of it (packages/server/src/check-in.ts, packages/server/src/db/settings.ts): one
 version number stands for the whole content.
 */
module Config {
  import opened Wrappers
  import opened Fleet

  datatype Defaults = Defaults(cpus: nat, memoryGb: nat, diskGb: nat)

  datatype Policy = Policy(freezeAfterSeconds: nat, stopAfterSeconds: Option<nat>, archiveAfterSeconds: Option<nat>)

  datatype Store = Store(endpoint: string, bucket: string, accessKeyId: string, secretAccessKey: string,
                         region: string, forcePathStyle: bool)

  datatype Settings = Settings(
    sandboxDefaults: Defaults,
    defaultPolicy: Policy,
    s3: Option<Store>,
    sandboxDomain: Option<string>,
    sandboxDomainAliases: seq<string>,
    pidsLimit: nat,
    baseImage: Option<string>,
    registryAddress: Option<string>)

  /** Each group given replaces that group whole; an absent one is kept. */
  datatype Patch = Patch(
    sandboxDefaults: Option<Defaults>,
    defaultPolicy: Option<Policy>,
    s3: Option<Option<Store>>,
    sandboxDomain: Option<Option<string>>,
    sandboxDomainAliases: Option<seq<string>>,
    pidsLimit: Option<nat>,
    baseImage: Option<Option<string>>)

  datatype Template = Template(image: string, createdAt: int, updatedAt: int)

  /** What every node is to run. */
  datatype Content = Content(settings: Settings, templates: map<string, Template>)

  datatype Db = Db(version: nat, content: Content, updatedAt: Option<int>)

  datatype Bundle = Bundle(version: nat, content: Content, swapGb: nat)

  // ---------------------------------------------------------------- what each write makes of the database

  function Patched(s: Settings, p: Patch): Settings {
    Settings(p.sandboxDefaults.GetOr(s.sandboxDefaults), p.defaultPolicy.GetOr(s.defaultPolicy), p.s3.GetOr(s.s3),
             p.sandboxDomain.GetOr(s.sandboxDomain), p.sandboxDomainAliases.GetOr(s.sandboxDomainAliases),
             p.pidsLimit.GetOr(s.pidsLimit), p.baseImage.GetOr(s.baseImage), s.registryAddress)
  }

  /** Columns born after the row: a seed fills one that was never set. */
  function LateFilled(s: Settings, seed: Settings): Settings {
    s.(baseImage := if s.baseImage.None? then seed.baseImage else s.baseImage,
       registryAddress := if s.registryAddress.None? then seed.registryAddress else s.registryAddress)
  }

  function Seeded(db: Option<Db>, seed: Settings): Db {
    if db.None? then Db(1, Content(seed, map[]), None)
    else
      var filled := LateFilled(db.value.content.settings, seed);
      if filled == db.value.content.settings then db.value
      else db.value.(version := db.value.version + 1, content := db.value.content.(settings := filled))
  }

  function Written(db: Db, p: Patch, now: int): Db {
    Db(db.version + 1, db.content.(settings := Patched(db.content.settings, p)), Some(now))
  }

  function Registered(db: Db, name: string, image: string, now: int): Db {
    var t := db.content.templates;
    if name in t && t[name].image == image then db
    else
      var row := Template(image, if name in t then t[name].createdAt else now, now);
      db.(version := db.version + 1, content := db.content.(templates := t[name := row]))
  }

  function Removed(db: Db, name: string): Db {
    if name !in db.content.templates then db
    else db.(version := db.version + 1, content := db.content.(templates := db.content.templates - {name}))
  }

  /** Each group given replaces that group and no other; an absent one, the registry and the templates are kept. */
  lemma WrittenMeans(db: Db, p: Patch, now: int)
    ensures var s, t := db.content.settings, Written(db, p, now).content.settings;
      && (p.sandboxDefaults.Some? ==> t.sandboxDefaults == p.sandboxDefaults.value)
      && (p.sandboxDefaults.None? ==> t.sandboxDefaults == s.sandboxDefaults)
      && (p.defaultPolicy.Some? ==> t.defaultPolicy == p.defaultPolicy.value)
      && (p.defaultPolicy.None? ==> t.defaultPolicy == s.defaultPolicy)
      && (p.s3.Some? ==> t.s3 == p.s3.value)
      && (p.s3.None? ==> t.s3 == s.s3)
      && (p.sandboxDomain.Some? ==> t.sandboxDomain == p.sandboxDomain.value)
      && (p.sandboxDomain.None? ==> t.sandboxDomain == s.sandboxDomain)
      && (p.sandboxDomainAliases.Some? ==> t.sandboxDomainAliases == p.sandboxDomainAliases.value)
      && (p.sandboxDomainAliases.None? ==> t.sandboxDomainAliases == s.sandboxDomainAliases)
      && (p.pidsLimit.Some? ==> t.pidsLimit == p.pidsLimit.value)
      && (p.pidsLimit.None? ==> t.pidsLimit == s.pidsLimit)
      && (p.baseImage.Some? ==> t.baseImage == p.baseImage.value)
      && (p.baseImage.None? ==> t.baseImage == s.baseImage)
      && t.registryAddress == s.registryAddress
    ensures var after := Written(db, p, now);
      after.version == db.version + 1 && after.updatedAt == Some(now) && after.content.templates == db.content.templates
  {
  }

  /** A template registered: there with that image, its birth kept if it was there; every other untouched. */
  lemma RegisteredMeans(db: Db, name: string, image: string, now: int)
    ensures var was, next := db.content.templates, Registered(db, name, image, now).content.templates;
      && name in next && next[name].image == image && next.Keys == was.Keys + {name}
      && (forall o :: o in was && o != name ==> next[o] == was[o])
      && (name in was ==> next[name].createdAt == was[name].createdAt)
      && (name !in was ==> next[name] == Template(image, now, now))
      && (name in was && was[name].image == image ==> Registered(db, name, image, now) == db)
      && (name in was && was[name].image != image ==> next[name].updatedAt == now)
      && (!(name in was && was[name].image == image) ==> Registered(db, name, image, now).version == db.version + 1)
      && Registered(db, name, image, now).content.settings == db.content.settings
  {
  }

  /** A template removed: that one gone under a new version, every other untouched; an unknown name changes nothing. */
  lemma RemovedMeans(db: Db, name: string)
    ensures var was, next := db.content.templates, Removed(db, name).content.templates;
      && next.Keys == was.Keys - {name} && (forall o :: o in next ==> next[o] == was[o])
      && Removed(db, name).content.settings == db.content.settings
      && Removed(db, name).version == if name in was then db.version + 1 else db.version
  {
  }

  /** A start: the seed is the first content ever; later it only fills what was never set of the two late columns. */
  lemma SeededMeans(db: Option<Db>, seed: Settings)
    ensures db.None? ==> Seeded(db, seed) == Db(1, Content(seed, map[]), None)
    ensures db.Some? ==>
      var s, t := db.value.content.settings, Seeded(db, seed).content.settings;
      && t == s.(baseImage := t.baseImage, registryAddress := t.registryAddress)
      && (s.baseImage.Some? ==> t.baseImage == s.baseImage)
      && (s.baseImage.None? ==> t.baseImage == seed.baseImage)
      && (s.registryAddress.Some? ==> t.registryAddress == s.registryAddress)
      && (s.registryAddress.None? ==> t.registryAddress == seed.registryAddress)
      && Seeded(db, seed).content.templates == db.value.content.templates
      && Seeded(db, seed).version == if s == t then db.value.version else db.value.version + 1
  {
  }

  class GatewayDb {
    var row: Option<Db>

    constructor ()
      ensures row == None
    {
      row := None;
    }

    method BumpConfigVersion()
      requires row.Some?
      modifies this
      ensures row == Some(old(row).value.(version := old(row).value.version + 1))
    {
      row := Some(row.value.(version := row.value.version + 1));
    }

    /** At every start: insert or nothing, then the columns never set. */
    method EnsureSettings(seed: Settings)
      modifies this
      ensures row == Some(Seeded(old(row), seed))
    {
      if row.None? {
        row := Some(Db(1, Content(seed, map[]), None));
      }
      var s := row.value.content.settings;
      var fillsImage := s.baseImage.None? && seed.baseImage.Some?;
      var fillsRegistry := s.registryAddress.None? && seed.registryAddress.Some?;
      if fillsImage {
        s := s.(baseImage := seed.baseImage);
      }
      if fillsRegistry {
        s := s.(registryAddress := seed.registryAddress);
      }
      if fillsImage || fillsRegistry {
        row := Some(row.value.(content := row.value.content.(settings := s)));
        BumpConfigVersion();
      }
    }

    method WriteSettings(p: Patch, now: int)
      requires row.Some?
      modifies this
      ensures row == Some(Written(old(row).value, p, now))
    {
      var s := row.value.content.settings;
      if p.sandboxDefaults.Some? { s := s.(sandboxDefaults := p.sandboxDefaults.value); }
      if p.defaultPolicy.Some? { s := s.(defaultPolicy := p.defaultPolicy.value); }
      if p.s3.Some? { s := s.(s3 := p.s3.value); }
      if p.sandboxDomain.Some? { s := s.(sandboxDomain := p.sandboxDomain.value); }
      if p.sandboxDomainAliases.Some? { s := s.(sandboxDomainAliases := p.sandboxDomainAliases.value); }
      if p.pidsLimit.Some? { s := s.(pidsLimit := p.pidsLimit.value); }
      if p.baseImage.Some? { s := s.(baseImage := p.baseImage.value); }
      row := Some(Db(row.value.version + 1, row.value.content.(settings := s), Some(now)));
    }

    method RegisterTemplate(name: string, image: string, now: int) returns (r: Template)
      requires row.Some?
      modifies this
      ensures row == Some(Registered(old(row).value, name, image, now))
      ensures name in row.value.content.templates && r == row.value.content.templates[name] && r.image == image
    {
      var t := row.value.content.templates;
      if name in t && t[name].image == image { return t[name]; }
      if name !in t {
        r := Template(image, now, now);
      } else {
        r := t[name].(image := image, updatedAt := now);
      }
      row := Some(row.value.(content := row.value.content.(templates := t[name := r])));
      BumpConfigVersion();
    }

    method RemoveTemplate(name: string) returns (existed: bool)
      requires row.Some?
      modifies this
      ensures row == Some(Removed(old(row).value, name))
      ensures existed == (name in old(row).value.content.templates)
    {
      existed := name in row.value.content.templates;
      if !existed { return; }
      row := Some(row.value.(content := row.value.content.(templates := row.value.content.templates - {name})));
      BumpConfigVersion();
    }

    /** A node's own swap target, under a new version in the same transaction. */
    method SetSwapGb(fleet: Fleet, id: NodeId, swapGb: nat) returns (known: bool)
      requires row.Some?
      modifies this, fleet
      ensures known == (id in old(fleet.members))
      ensures known ==> fleet.members == old(fleet.members)[id := old(fleet.members)[id].(swapGb := swapGb)]
                        && row == Some(old(row).value.(version := old(row).value.version + 1))
      ensures !known ==> fleet.members == old(fleet.members) && row == old(row)
    {
      if id !in fleet.members { return false; }
      BumpConfigVersion();
      fleet.members := fleet.members[id := fleet.members[id].(swapGb := swapGb)];
      known := true;
    }
  }

  /** The bundle a node applies: everything from one reading of the database. */
  function BundleOf(db: Db, swapGb: nat): Bundle { Bundle(db.version, db.content, swapGb) }

  /** What a check-in is answered: nothing to a node that runs this version, else the whole bundle. */
  function AnswerTo(db: Db, runs: Option<nat>, swapGb: nat): Option<Bundle> {
    if runs == Some(db.version) then None else Some(BundleOf(db, swapGb))
  }

  // ---------------------------------------------------------------- a node's copy

  /** How one check-in went: no answer, or one with or without a bundle, and whether it could be applied. */
  datatype Reply = Lost | Answered(config: Option<Bundle>, applies: bool)

  function Applied(copy: Option<Bundle>, r: Reply): Option<Bundle> {
    if r.Answered? && r.config.Some? && r.applies then r.config else copy
  }

  class CheckIn {
    var copy: Option<Bundle>
    var failing: bool
    var closing: bool

    constructor (copy: Option<Bundle>)
      ensures this.copy == copy && !failing && !closing
    {
      this.copy, failing, closing := copy, false, false;
    }

    /** One check-in: it never throws; a bundle is applied whole or not at all. */
    method Once(r: Reply)
      modifies this`copy, this`failing
      ensures copy == Applied(old(copy), r)
      ensures failing == (r.Lost? || (r.config.Some? && !r.applies))
    {
      if r.Lost? {
        failing := true;
        return;
      }
      failing := false;
      if r.config.Some? {
        if !r.applies {
          failing := true;
          return;
        }
        copy := r.config;
      }
    }

    method Stop()
      modifies this`closing
      ensures closing
    {
      closing := true;
    }

    /**
     At boot: check-ins until a copy is held or the daemon closes. `replies` is what the
     gateway will say; the stop, if one comes, comes when `stops` check-ins have been made.
     */
    method UntilConfigured(replies: seq<Reply>, stops: nat) returns (used: nat)
      requires stops > 0
      modifies this
      ensures used <= |replies| && closing == (old(closing) || used >= stops)
      ensures old(copy).Some? || old(closing) ==> used == 0 && copy == old(copy)
      ensures old(copy).None? && !old(closing) ==>
        && copy == CopyAfter(replies[..used])
        && (forall i :: 0 <= i < used ==> CopyAfter(replies[..i]).None?)
        && used <= stops && (copy.Some? || used == |replies| || used == stops)
    {
      used := 0;
      while !closing && copy.None? && used < |replies|
        invariant used <= |replies| && closing == (old(closing) || used >= stops)
        invariant used <= stops || old(closing)
        invariant old(copy).Some? || old(closing) ==> used == 0 && copy == old(copy)
        invariant old(copy).None? ==> copy == CopyAfter(replies[..used])
        invariant old(copy).None? ==> forall i :: 0 <= i < used ==> CopyAfter(replies[..i]).None?
        decreases |replies| - used
      {
        assert replies[..used + 1][..used] == replies[..used];
        Once(replies[used]);
        used := used + 1;
        if used == stops { Stop(); }
      }
    }
  }

  /** The copy a node that had none holds after these replies. */
  function CopyAfter(replies: seq<Reply>): Option<Bundle> {
    if replies == [] then None else Applied(CopyAfter(replies[..|replies| - 1]), replies[|replies| - 1])
  }
}
