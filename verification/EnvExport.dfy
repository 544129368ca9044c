// Exporting a stack's connection data as environment variables.
module EnvExport {
  import opened Text
  import opened EnvKeys
  import opened KeyedWrites

  datatype ClickHouseResource = ClickHouseResource(dsn: string, httpDsn: string)
  datatype RedisResource = RedisResource(addr: string, url: string)
  datatype LocalStackResource =
    LocalStackResource(endpoint: string, region: string, accessKeyId: string, secretAccessKey: string)

  // The resources of a stack by instance name, as far as they are exported.
  datatype Stack = Stack(
    postgres: map<string, string>,
    clickHouse: map<string, ClickHouseResource>,
    redis: map<string, RedisResource>,
    kafka: map<string, seq<string>>,
    httpMocks: map<string, string>,
    localStack: map<string, LocalStackResource>)

  function Names(s: Stack, family: Family): set<string> {
    match family
    case Postgres => s.postgres.Keys
    case ClickHouse => s.clickHouse.Keys
    case Redis => s.redis.Keys
    case Kafka => s.kafka.Keys
    case HttpMock => s.httpMocks.Keys
    case LocalStack => s.localStack.Keys
  }

  // A variable: one field of one instance.
  datatype Var = Var(f: Field, name: string)

  predicate In(v: Var, s: Stack) {
    v.name in Names(s, FamilyOf(v.f))
  }

  function KeyOf(v: Var): string {
    Key(v.f, v.name)
  }

  // What the stack has for a variable; nothing for those it does not have.
  function ValueOf(s: Stack, v: Var): string {
    if !In(v, s) then ""
    else
      match v.f
      case PostgresDsn => s.postgres[v.name]
      case ClickHouseDsn => s.clickHouse[v.name].dsn
      case ClickHouseHttpDsn => s.clickHouse[v.name].httpDsn
      case RedisAddr => s.redis[v.name].addr
      case RedisUrl => s.redis[v.name].url
      case KafkaBrokers => Join(s.kafka[v.name], ",")
      case HttpMockBaseUrl => s.httpMocks[v.name]
      case LocalStackEndpoint => s.localStack[v.name].endpoint
      case LocalStackRegion => s.localStack[v.name].region
      case LocalStackAccessKeyId => s.localStack[v.name].accessKeyId
      case LocalStackSecretAccessKey => s.localStack[v.name].secretAccessKey
  }

  function ValuesOf(s: Stack): Var -> string {
    v => ValueOf(s, v)
  }

  // All variables of a stack.
  ghost function Vars(s: Stack): set<Var> {
    set f: Field, n | n in Names(s, FamilyOf(f)) :: Var(f, n)
  }

  lemma VarsAreIn(s: Stack, v: Var)
    ensures v in Vars(s) <==> In(v, s)
  {
  }

  datatype Orders = Orders(postgres: seq<string>, clickHouse: seq<string>, redis: seq<string>,
                           kafka: seq<string>, httpMocks: seq<string>, localStack: seq<string>)

  function OrderOf(o: Orders, family: Family): seq<string> {
    match family
    case Postgres => o.postgres
    case ClickHouse => o.clickHouse
    case Redis => o.redis
    case Kafka => o.kafka
    case HttpMock => o.httpMocks
    case LocalStack => o.localStack
  }

  // Every loop visits the instances of its family once.
  ghost predicate Visits(o: Orders, s: Stack) {
    && IsOrderOf(o.postgres, s.postgres.Keys)
    && IsOrderOf(o.clickHouse, s.clickHouse.Keys)
    && IsOrderOf(o.redis, s.redis.Keys)
    && IsOrderOf(o.kafka, s.kafka.Keys)
    && IsOrderOf(o.httpMocks, s.httpMocks.Keys)
    && IsOrderOf(o.localStack, s.localStack.Keys)
  }

  // ---- the loops ----

  // The variables of one instance, in the order in which they are assigned.
  function VarsOf(family: Family, n: string): seq<Var> {
    match family
    case Postgres => [Var(PostgresDsn, n)]
    case ClickHouse => [Var(ClickHouseDsn, n), Var(ClickHouseHttpDsn, n)]
    case Redis => [Var(RedisAddr, n), Var(RedisUrl, n)]
    case Kafka => [Var(KafkaBrokers, n)]
    case HttpMock => [Var(HttpMockBaseUrl, n)]
    case LocalStack =>
      [Var(LocalStackEndpoint, n), Var(LocalStackRegion, n),
       Var(LocalStackAccessKeyId, n), Var(LocalStackSecretAccessKey, n)]
  }

  // The assignments of one family's loop.
  function FamilyVars(family: Family, order: seq<string>): seq<Var> {
    if order == [] then []
    else FamilyVars(family, order[..|order| - 1]) + VarsOf(family, order[|order| - 1])
  }

  // All assignments, loop after loop: those of the databases, then the others.
  function DatabaseVars(o: Orders): seq<Var> {
    FamilyVars(Postgres, o.postgres) + FamilyVars(ClickHouse, o.clickHouse) + FamilyVars(Redis, o.redis)
  }

  function AllVars(o: Orders): seq<Var> {
    DatabaseVars(o) + FamilyVars(Kafka, o.kafka) + FamilyVars(HttpMock, o.httpMocks) +
    FamilyVars(LocalStack, o.localStack)
  }

  lemma NextName(done: seq<Var>, family: Family, order: seq<string>, i: nat)
    requires i < |order|
    ensures done + FamilyVars(family, order[..i + 1]) == done + FamilyVars(family, order[..i]) +
            VarsOf(family, order[i])
  {
    assert order[..i + 1][..i] == order[..i];
  }

  lemma Visited(order: seq<string>, keys: set<string>, i: nat)
    requires i < |order| && IsOrderOf(order, keys)
    ensures order[i] in keys
  {
    assert order[i] in order;
  }

  // The map is what assigning these variables leaves.
  ghost predicate Holds(s: Stack, out: map<string, string>, done: seq<Var>) {
    out == Written(done, KeyOf, ValuesOf(s))
  }

  // One assignment; ghost are the variables assigned so far.
  method Assign(s: Stack, v: Var, value: string, before: map<string, string>, ghost done: seq<Var>)
    returns (out: map<string, string>, ghost now: seq<Var>)
    requires value == ValueOf(s, v) && Holds(s, before, done)
    ensures now == done + [v] && Holds(s, out, now)
  {
    WrittenOne(done, KeyOf, ValuesOf(s), v);
    out, now := before[Key(v.f, v.name) := value], done + [v];
  }

  method AssignClickHouse(s: Stack, name: string, before: map<string, string>, ghost done: seq<Var>)
    returns (out: map<string, string>, ghost now: seq<Var>)
    requires name in s.clickHouse && Holds(s, before, done)
    ensures now == done + VarsOf(ClickHouse, name) && Holds(s, out, now)
  {
    var r := s.clickHouse[name];
    out, now := Assign(s, Var(ClickHouseDsn, name), r.dsn, before, done);
    out, now := Assign(s, Var(ClickHouseHttpDsn, name), r.httpDsn, out, now);
  }

  method AssignRedis(s: Stack, name: string, before: map<string, string>, ghost done: seq<Var>)
    returns (out: map<string, string>, ghost now: seq<Var>)
    requires name in s.redis && Holds(s, before, done)
    ensures now == done + VarsOf(Redis, name) && Holds(s, out, now)
  {
    var r := s.redis[name];
    out, now := Assign(s, Var(RedisAddr, name), r.addr, before, done);
    out, now := Assign(s, Var(RedisUrl, name), r.url, out, now);
  }

  lemma LocalStackValues(s: Stack, name: string)
    requires name in s.localStack
    ensures ValueOf(s, Var(LocalStackEndpoint, name)) == s.localStack[name].endpoint
    ensures ValueOf(s, Var(LocalStackRegion, name)) == s.localStack[name].region
    ensures ValueOf(s, Var(LocalStackAccessKeyId, name)) == s.localStack[name].accessKeyId
    ensures ValueOf(s, Var(LocalStackSecretAccessKey, name)) == s.localStack[name].secretAccessKey
  {
  }

  method AssignLocalStack(s: Stack, name: string, before: map<string, string>, ghost done: seq<Var>)
    returns (out: map<string, string>, ghost now: seq<Var>)
    requires name in s.localStack && Holds(s, before, done)
    ensures now == done + VarsOf(LocalStack, name) && Holds(s, out, now)
  {
    var r := s.localStack[name];
    LocalStackValues(s, name);
    out, now := Assign(s, Var(LocalStackEndpoint, name), r.endpoint, before, done);
    out, now := Assign(s, Var(LocalStackRegion, name), r.region, out, now);
    out, now := Assign(s, Var(LocalStackAccessKeyId, name), r.accessKeyId, out, now);
    out, now := Assign(s, Var(LocalStackSecretAccessKey, name), r.secretAccessKey, out, now);
  }

  // The assignments for one instance.
  method AssignInstance(s: Stack, family: Family, name: string, before: map<string, string>, ghost done: seq<Var>)
    returns (out: map<string, string>, ghost now: seq<Var>)
    requires name in Names(s, family) && Holds(s, before, done)
    ensures now == done + VarsOf(family, name) && Holds(s, out, now)
  {
    match family {
      case Postgres =>
        out, now := Assign(s, Var(PostgresDsn, name), s.postgres[name], before, done);
      case ClickHouse =>
        out, now := AssignClickHouse(s, name, before, done);
      case Redis =>
        out, now := AssignRedis(s, name, before, done);
      case Kafka =>
        out, now := Assign(s, Var(KafkaBrokers, name), Join(s.kafka[name], ","), before, done);
      case HttpMock =>
        out, now := Assign(s, Var(HttpMockBaseUrl, name), s.httpMocks[name], before, done);
      case LocalStack =>
        out, now := AssignLocalStack(s, name, before, done);
    }
  }

  // The loop over the instances of one family.
  method ExportFamily(s: Stack, family: Family, order: seq<string>, before: map<string, string>, ghost done: seq<Var>)
    returns (out: map<string, string>, ghost now: seq<Var>)
    requires IsOrderOf(order, Names(s, family)) && Holds(s, before, done)
    ensures now == done + FamilyVars(family, order) && Holds(s, out, now)
  {
    out, now := before, done;
    for i := 0 to |order|
      invariant now == done + FamilyVars(family, order[..i]) && Holds(s, out, now)
    {
      Visited(order, Names(s, family), i);
      NextName(done, family, order, i);
      out, now := AssignInstance(s, family, order[i], out, now);
    }
    assert order[..|order|] == order;
  }

  // What the loops write when they visit the instances in these orders.
  function ExportIn(s: Stack, o: Orders): map<string, string> {
    Written(AllVars(o), KeyOf, ValuesOf(s))
  }

  lemma AllInTurn(o: Orders)
    ensures [] + FamilyVars(Postgres, OrderOf(o, Postgres)) + FamilyVars(ClickHouse, OrderOf(o, ClickHouse)) +
            FamilyVars(Redis, OrderOf(o, Redis)) + FamilyVars(Kafka, OrderOf(o, Kafka)) +
            FamilyVars(HttpMock, OrderOf(o, HttpMock)) + FamilyVars(LocalStack, OrderOf(o, LocalStack)) == AllVars(o)
  {
    assert [] + FamilyVars(Postgres, o.postgres) == FamilyVars(Postgres, o.postgres);
  }

  // The six loops, one after the other, over one map.
  method ExportEnv(s: Stack, o: Orders) returns (out: map<string, string>)
    requires Visits(o, s)
    ensures out == ExportIn(s, o)
    ensures Exports(s, out)
    ensures Distinct(s) ==> Spelled(s, out)
  {
    forall family ensures IsOrderOf(OrderOf(o, family), Names(s, family)) {
      OrderHasNames(s, o, family);
    }
    ghost var done;
    out, done := ExportFamily(s, Postgres, OrderOf(o, Postgres), map[], []);
    out, done := ExportFamily(s, ClickHouse, OrderOf(o, ClickHouse), out, done);
    out, done := ExportFamily(s, Redis, OrderOf(o, Redis), out, done);
    out, done := ExportFamily(s, Kafka, OrderOf(o, Kafka), out, done);
    out, done := ExportFamily(s, HttpMock, OrderOf(o, HttpMock), out, done);
    out, done := ExportFamily(s, LocalStack, OrderOf(o, LocalStack), out, done);
    AllInTurn(o);
    LoopsAreExport(s, o);
    if Distinct(s) {
      DistinctIsSpelled(s, out);
    }
  }

  // The map has exactly the keys of the stack's variables, each with the value of one.
  ghost predicate Exports(s: Stack, out: map<string, string>) {
    Shows(out, Vars(s), KeyOf, ValuesOf(s))
  }

  lemma {:induction false} FamilyVarsAre(family: Family, order: seq<string>, v: Var)
    ensures v in FamilyVars(family, order) <==> FamilyOf(v.f) == family && v.name in order
  {
    if order != [] {
      var front, n := order[..|order| - 1], order[|order| - 1];
      FamilyVarsAre(family, front, v);
      assert order == front + [n];
      VarsOfAre(family, n, v);
    }
  }

  lemma VarsOfAre(family: Family, n: string, v: Var)
    ensures v in VarsOf(family, n) <==> FamilyOf(v.f) == family && v.name == n
  {
  }

  lemma InThree(a: seq<Var>, b: seq<Var>, c: seq<Var>, v: Var)
    ensures v in a + b + c <==> v in a || v in b || v in c
  {
  }

  lemma DatabaseVarsAre(o: Orders, v: Var)
    ensures v in DatabaseVars(o) <==>
            FamilyOf(v.f) in {Postgres, ClickHouse, Redis} && v.name in OrderOf(o, FamilyOf(v.f))
  {
    FamilyVarsAre(Postgres, o.postgres, v);
    FamilyVarsAre(ClickHouse, o.clickHouse, v);
    FamilyVarsAre(Redis, o.redis, v);
    InThree(FamilyVars(Postgres, o.postgres), FamilyVars(ClickHouse, o.clickHouse), FamilyVars(Redis, o.redis), v);
  }

  lemma AllVarsHave(o: Orders, v: Var)
    ensures v in AllVars(o) <==> v.name in OrderOf(o, FamilyOf(v.f))
  {
    DatabaseVarsAre(o, v);
    FamilyVarsAre(Kafka, o.kafka, v);
    FamilyVarsAre(HttpMock, o.httpMocks, v);
    FamilyVarsAre(LocalStack, o.localStack, v);
    InThree(DatabaseVars(o), FamilyVars(Kafka, o.kafka), FamilyVars(HttpMock, o.httpMocks), v);
  }

  lemma OrderHasNames(s: Stack, o: Orders, family: Family)
    requires Visits(o, s)
    ensures IsOrderOf(OrderOf(o, family), Names(s, family))
  {
  }

  lemma AllVarsAre(s: Stack, o: Orders)
    requires Visits(o, s)
    ensures SetOf(AllVars(o)) == Vars(s)
  {
    forall v ensures v in AllVars(o) <==> v in Vars(s) {
      AllVarsHave(o, v);
      OrderHasNames(s, o, FamilyOf(v.f));
      VarsAreIn(s, v);
    }
  }

  lemma LoopsAreExport(s: Stack, o: Orders)
    requires Visits(o, s)
    ensures Exports(s, ExportIn(s, o))
  {
    WrittenShows(AllVars(o), KeyOf, ValuesOf(s));
    AllVarsAre(s, o);
  }

  // ---- the export, key by key ----

  // A name as it stands in a key: in capitals, with '_' for '-'.
  function Shouted(name: string): string {
    seq(|name|, i requires 0 <= i < |name| =>
      if name[i] == '-' then '_'
      else if 'a' <= name[i] <= 'z' then (name[i] as int - 32) as char
      else name[i])
  }

  ghost predicate AllDiffer(names: set<string>) {
    forall m, n :: m in names && n in names && Shouted(m) == Shouted(n) ==> m == n
  }

  // No two names of a family are one when shouted, and no two of ClickHouse differ by a
  // trailing "_HTTP" then.
  ghost predicate Distinct(s: Stack) {
    && AllDiffer(s.postgres.Keys) && AllDiffer(s.clickHouse.Keys) && AllDiffer(s.redis.Keys)
    && AllDiffer(s.kafka.Keys) && AllDiffer(s.httpMocks.Keys) && AllDiffer(s.localStack.Keys)
    && forall m, n :: m in s.clickHouse && n in s.clickHouse ==> Shouted(m) != Shouted(n) + "_HTTP"
  }

  predicate Has(out: map<string, string>, key: string, value: string) {
    key in out && out[key] == value
  }

  // Every field of every instance is under its key.
  ghost predicate Spelled(s: Stack, out: map<string, string>) {
    && (forall n :: n in s.postgres ==> Has(out, "POSTGRES_" + Shouted(n) + "_DSN", s.postgres[n]))
    && (forall n :: n in s.clickHouse ==>
          && Has(out, "CLICKHOUSE_" + Shouted(n) + "_DSN", s.clickHouse[n].dsn)
          && Has(out, "CLICKHOUSE_" + Shouted(n) + "_HTTP_DSN", s.clickHouse[n].httpDsn))
    && (forall n :: n in s.redis ==>
          && Has(out, "REDIS_" + Shouted(n) + "_ADDR", s.redis[n].addr)
          && Has(out, "REDIS_" + Shouted(n) + "_URL", s.redis[n].url))
    && (forall n :: n in s.kafka ==> Has(out, "KAFKA_" + Shouted(n) + "_BROKERS", Join(s.kafka[n], ",")))
    && (forall n :: n in s.httpMocks ==> Has(out, "HTTPMOCK_" + Shouted(n) + "_BASE_URL", s.httpMocks[n]))
    && (forall n :: n in s.localStack ==>
          && Has(out, "LOCALSTACK_" + Shouted(n) + "_ENDPOINT", s.localStack[n].endpoint)
          && Has(out, "LOCALSTACK_" + Shouted(n) + "_REGION", s.localStack[n].region)
          && Has(out, "LOCALSTACK_" + Shouted(n) + "_ACCESS_KEY_ID", s.localStack[n].accessKeyId)
          && Has(out, "LOCALSTACK_" + Shouted(n) + "_SECRET_ACCESS_KEY", s.localStack[n].secretAccessKey))
  }

  lemma FragmentIs(name: string)
    ensures EnvFragment(name) == Shouted(name)
  {
    FragmentChars(name);
  }

  lemma NamesDiffer(s: Stack, family: Family)
    requires Distinct(s)
    ensures AllDiffer(Names(s, family))
  {
  }

  lemma OneKeyOneVar(s: Stack, v: Var, w: Var)
    requires Distinct(s) && In(v, s) && In(w, s) && KeyOf(v) == KeyOf(w)
    ensures v == w
  {
    FragmentIs(v.name);
    FragmentIs(w.name);
    if v.f == w.f {
      NamesDiffer(s, FamilyOf(v.f));
      CancelSides(Head(FamilyOf(v.f)), EnvFragment(v.name), EnvFragment(w.name), Tail(v.f));
    } else {
      OtherFieldCollides(v.f, v.name, w.f, w.name);
    }
  }

  lemma DistinctIsFree(s: Stack)
    requires Distinct(s)
    ensures NoCollision(Vars(s), KeyOf) && CollisionsAgree(Vars(s), KeyOf, ValuesOf(s))
  {
    forall v, w | v in Vars(s) && w in Vars(s) && KeyOf(v) == KeyOf(w) ensures v == w {
      OneKeyOneVar(s, v, w);
    }
  }

  lemma Stands(s: Stack, out: map<string, string>, f: Field, n: string)
    requires Complete(out, Vars(s), KeyOf, ValuesOf(s)) && n in Names(s, FamilyOf(f))
    ensures Has(out, Head(FamilyOf(f)) + Shouted(n) + Tail(f), ValueOf(s, Var(f, n)))
  {
    FragmentIs(n);
    VarsAreIn(s, Var(f, n));
    assert KeyOf(Var(f, n)) in out && out[KeyOf(Var(f, n))] == ValuesOf(s)(Var(f, n));
  }

  lemma PostgresStands(s: Stack, out: map<string, string>, n: string)
    requires Complete(out, Vars(s), KeyOf, ValuesOf(s)) && n in s.postgres
    ensures Has(out, "POSTGRES_" + Shouted(n) + "_DSN", s.postgres[n])
  {
    Stands(s, out, PostgresDsn, n);
  }

  lemma ClickHouseStands(s: Stack, out: map<string, string>, n: string)
    requires Complete(out, Vars(s), KeyOf, ValuesOf(s)) && n in s.clickHouse
    ensures Has(out, "CLICKHOUSE_" + Shouted(n) + "_DSN", s.clickHouse[n].dsn)
    ensures Has(out, "CLICKHOUSE_" + Shouted(n) + "_HTTP_DSN", s.clickHouse[n].httpDsn)
  {
    Stands(s, out, ClickHouseDsn, n);
    Stands(s, out, ClickHouseHttpDsn, n);
  }

  lemma RedisStands(s: Stack, out: map<string, string>, n: string)
    requires Complete(out, Vars(s), KeyOf, ValuesOf(s)) && n in s.redis
    ensures Has(out, "REDIS_" + Shouted(n) + "_ADDR", s.redis[n].addr)
    ensures Has(out, "REDIS_" + Shouted(n) + "_URL", s.redis[n].url)
  {
    Stands(s, out, RedisAddr, n);
    Stands(s, out, RedisUrl, n);
  }

  lemma KafkaStands(s: Stack, out: map<string, string>, n: string)
    requires Complete(out, Vars(s), KeyOf, ValuesOf(s)) && n in s.kafka
    ensures Has(out, "KAFKA_" + Shouted(n) + "_BROKERS", Join(s.kafka[n], ","))
  {
    Stands(s, out, KafkaBrokers, n);
  }

  lemma HttpMockStands(s: Stack, out: map<string, string>, n: string)
    requires Complete(out, Vars(s), KeyOf, ValuesOf(s)) && n in s.httpMocks
    ensures Has(out, "HTTPMOCK_" + Shouted(n) + "_BASE_URL", s.httpMocks[n])
  {
    Stands(s, out, HttpMockBaseUrl, n);
  }

  lemma LocalStackStands(s: Stack, out: map<string, string>, n: string)
    requires Complete(out, Vars(s), KeyOf, ValuesOf(s)) && n in s.localStack
    ensures Has(out, "LOCALSTACK_" + Shouted(n) + "_ENDPOINT", s.localStack[n].endpoint)
    ensures Has(out, "LOCALSTACK_" + Shouted(n) + "_REGION", s.localStack[n].region)
    ensures Has(out, "LOCALSTACK_" + Shouted(n) + "_ACCESS_KEY_ID", s.localStack[n].accessKeyId)
    ensures Has(out, "LOCALSTACK_" + Shouted(n) + "_SECRET_ACCESS_KEY", s.localStack[n].secretAccessKey)
  {
    Stands(s, out, LocalStackEndpoint, n);
    Stands(s, out, LocalStackRegion, n);
    Stands(s, out, LocalStackAccessKeyId, n);
    Stands(s, out, LocalStackSecretAccessKey, n);
  }

  // When no keys collide, every field of every instance stands under its own key.
  lemma CompleteIsSpelled(s: Stack, out: map<string, string>)
    requires Complete(out, Vars(s), KeyOf, ValuesOf(s))
    ensures Spelled(s, out)
  {
    forall n | n in s.postgres
      ensures Has(out, "POSTGRES_" + Shouted(n) + "_DSN", s.postgres[n])
    {
      PostgresStands(s, out, n);
    }
    forall n | n in s.clickHouse
      ensures Has(out, "CLICKHOUSE_" + Shouted(n) + "_DSN", s.clickHouse[n].dsn)
      ensures Has(out, "CLICKHOUSE_" + Shouted(n) + "_HTTP_DSN", s.clickHouse[n].httpDsn)
    {
      ClickHouseStands(s, out, n);
    }
    forall n | n in s.redis
      ensures Has(out, "REDIS_" + Shouted(n) + "_ADDR", s.redis[n].addr)
      ensures Has(out, "REDIS_" + Shouted(n) + "_URL", s.redis[n].url)
    {
      RedisStands(s, out, n);
    }
    forall n | n in s.kafka
      ensures Has(out, "KAFKA_" + Shouted(n) + "_BROKERS", Join(s.kafka[n], ","))
    {
      KafkaStands(s, out, n);
    }
    forall n | n in s.httpMocks
      ensures Has(out, "HTTPMOCK_" + Shouted(n) + "_BASE_URL", s.httpMocks[n])
    {
      HttpMockStands(s, out, n);
    }
    forall n | n in s.localStack
      ensures Has(out, "LOCALSTACK_" + Shouted(n) + "_ENDPOINT", s.localStack[n].endpoint)
      ensures Has(out, "LOCALSTACK_" + Shouted(n) + "_REGION", s.localStack[n].region)
      ensures Has(out, "LOCALSTACK_" + Shouted(n) + "_ACCESS_KEY_ID", s.localStack[n].accessKeyId)
      ensures Has(out, "LOCALSTACK_" + Shouted(n) + "_SECRET_ACCESS_KEY", s.localStack[n].secretAccessKey)
    {
      LocalStackStands(s, out, n);
    }
  }

  lemma DistinctIsSpelled(s: Stack, out: map<string, string>)
    requires Exports(s, out) && Distinct(s)
    ensures Spelled(s, out)
  {
    DistinctIsFree(s);
    CompleteIffAgree(out, Vars(s), KeyOf, ValuesOf(s));
    CompleteIsSpelled(s, out);
  }

  // ---- what the export is worth ----

  // For valid names, no key is shared exactly when no two instances of a family have names
  // equal up to '-' and '_', and no two ClickHouse instances clash through "_HTTP".
  lemma CollisionFree(s: Stack)
    requires forall v :: v in Vars(s) ==> ValidName(v.name)
    ensures NoCollision(Vars(s), KeyOf) <==>
            forall v, w :: v in Vars(s) && w in Vars(s) ==>
              && (v.f == w.f && SameUpToDash(v.name, w.name) ==> v == w)
              && !HttpClash(v.f, v.name, w.f, w.name)
  {
    forall v, w | v in Vars(s) && w in Vars(s)
      ensures KeyOf(v) == KeyOf(w) <==>
              (v.f == w.f && SameUpToDash(v.name, w.name)) ||
              HttpClash(v.f, v.name, w.f, w.name) || HttpClash(w.f, w.name, v.f, v.name)
    {
      Collisions(v.f, v.name, w.f, w.name);
    }
  }

  // Every variable can be read back exactly when variables that share a key agree.
  lemma ExportCompleteIffAgree(s: Stack, out: map<string, string>)
    requires Exports(s, out)
    ensures Complete(out, Vars(s), KeyOf, ValuesOf(s)) <==> CollisionsAgree(Vars(s), KeyOf, ValuesOf(s))
  {
    CompleteIffAgree(out, Vars(s), KeyOf, ValuesOf(s));
  }

  // Then no order of iteration gives another map.
  lemma ExportOrderIrrelevant(s: Stack, out: map<string, string>, other: map<string, string>)
    requires Exports(s, out) && Exports(s, other)
    requires CollisionsAgree(Vars(s), KeyOf, ValuesOf(s))
    ensures out == other
  {
    OneMap(out, other, Vars(s), KeyOf, ValuesOf(s));
  }

  function Rank(family: Family): nat {
    match family
    case Postgres => 0
    case ClickHouse => 1
    case Redis => 2
    case Kafka => 3
    case HttpMock => 4
    case LocalStack => 5
  }

  // ---- where colliding variables disagree, the order of iteration shows ----

  lemma OrderEnding(keys: set<string>, last: string) returns (order: seq<string>)
    requires last in keys
    ensures IsOrderOf(order, keys) && order != [] && order[|order| - 1] == last
  {
    var front := SomeOrder(keys - {last});
    order := front + [last];
    assert forall k :: k in order <==> k in front || k == last;
    assert last !in front;
  }

  // No later assignment has the key of v.
  ghost predicate Decides(vars: seq<Var>, v: Var) {
    exists front, back :: vars == front + [v] + back && KeyNotIn(back, v)
  }

  ghost predicate KeyNotIn(vars: seq<Var>, v: Var) {
    forall w :: w in vars ==> KeyOf(w) != KeyOf(v)
  }

  lemma DecidesAfter(before: seq<Var>, vars: seq<Var>, v: Var)
    requires Decides(vars, v)
    ensures Decides(before + vars, v)
  {
    var front, back :| vars == front + [v] + back && KeyNotIn(back, v);
    assert before + vars == (before + front) + [v] + back;
  }

  lemma DecidesBefore(vars: seq<Var>, after: seq<Var>, v: Var)
    requires Decides(vars, v) && KeyNotIn(after, v)
    ensures Decides(vars + after, v)
  {
    var front, back :| vars == front + [v] + back && KeyNotIn(back, v);
    assert vars + after == front + [v] + (back + after);
    assert KeyNotIn(back + after, v);
  }

  // The fields of one instance have different keys.
  lemma OwnKeys(f: Field, g: Field, n: string)
    requires f != g && FamilyOf(f) == FamilyOf(g)
    ensures Key(f, n) != Key(g, n)
  {
    KeyEnds(f, n);
    KeyEnds(g, n);
    ClashMeans(n, n);
    assert |EnvFragment(n)| < |EnvFragment(n) + "_HTTP"|;
  }

  lemma DecidesOwn(v: Var)
    ensures Decides(VarsOf(FamilyOf(v.f), v.name), v)
  {
    var vars := VarsOf(FamilyOf(v.f), v.name);
    VarsOfAre(FamilyOf(v.f), v.name, v);
    VarsOfOne(FamilyOf(v.f), v.name);
    var i :| 0 <= i < |vars| && vars[i] == v;
    var back := vars[i + 1..];
    forall w | w in back ensures KeyOf(w) != KeyOf(v) {
      var j :| 0 <= j < |back| && back[j] == w;
      assert w == vars[i + 1 + j];
      VarsOfAre(FamilyOf(v.f), v.name, w);
      OwnKeys(w.f, v.f, v.name);
    }
    assert KeyNotIn(back, v);
    assert vars == vars[..i] + [v] + back;
  }

  lemma OtherFamilyKeys(family: Family, order: seq<string>, v: Var)
    requires FamilyOf(v.f) != family
    ensures KeyNotIn(FamilyVars(family, order), v)
  {
    forall w | w in FamilyVars(family, order) ensures KeyOf(w) != KeyOf(v) {
      FamilyVarsAre(family, order, w);
      KeyEnds(w.f, w.name);
      KeyEnds(v.f, v.name);
    }
  }

  lemma NextLoop(done: seq<Var>, family: Family, order: seq<string>, v: Var)
    requires Decides(done, v) && FamilyOf(v.f) != family
    ensures Decides(done + FamilyVars(family, order), v)
  {
    OtherFamilyKeys(family, order, v);
    DecidesBefore(done, FamilyVars(family, order), v);
  }

  lemma OwnLoop(done: seq<Var>, order: seq<string>, v: Var)
    requires order != [] && order[|order| - 1] == v.name
    ensures Decides(done + FamilyVars(FamilyOf(v.f), order), v)
  {
    DecidesOwn(v);
    DecidesAfter(FamilyVars(FamilyOf(v.f), order[..|order| - 1]), VarsOf(FamilyOf(v.f), v.name), v);
    DecidesAfter(done, FamilyVars(FamilyOf(v.f), order), v);
  }

  // A loop keeps v deciding, or makes it decide if it is the loop of v.
  lemma AnyLoop(done: seq<Var>, family: Family, order: seq<string>, v: Var)
    requires FamilyOf(v.f) == family ==> order != [] && order[|order| - 1] == v.name
    requires FamilyOf(v.f) != family && Rank(FamilyOf(v.f)) < Rank(family) ==> Decides(done, v)
    ensures Rank(FamilyOf(v.f)) <= Rank(family) ==> Decides(done + FamilyVars(family, order), v)
  {
    if FamilyOf(v.f) == family {
      OwnLoop(done, order, v);
    } else if Rank(FamilyOf(v.f)) < Rank(family) {
      NextLoop(done, family, order, v);
    }
  }

  // v's instance is the last that its loop visits.
  predicate VisitedLast(o: Orders, v: Var) {
    var order := OrderOf(o, FamilyOf(v.f));
    order != [] && order[|order| - 1] == v.name
  }

  lemma DatabaseLoops(o: Orders, v: Var)
    requires VisitedLast(o, v)
    ensures Rank(FamilyOf(v.f)) <= 2 ==> Decides(DatabaseVars(o), v)
  {
    var a := FamilyVars(Postgres, o.postgres);
    assert [] + a == a;
    AnyLoop([], Postgres, o.postgres, v);
    AnyLoop(a, ClickHouse, o.clickHouse, v);
    AnyLoop(a + FamilyVars(ClickHouse, o.clickHouse), Redis, o.redis, v);
  }

  lemma OtherLoops(o: Orders, done: seq<Var>, v: Var)
    requires VisitedLast(o, v)
    requires Rank(FamilyOf(v.f)) <= 2 ==> Decides(done, v)
    ensures Decides(done + FamilyVars(Kafka, o.kafka) + FamilyVars(HttpMock, o.httpMocks) +
                    FamilyVars(LocalStack, o.localStack), v)
  {
    var d := done + FamilyVars(Kafka, o.kafka);
    AnyLoop(done, Kafka, o.kafka, v);
    AnyLoop(d, HttpMock, o.httpMocks, v);
    AnyLoop(d + FamilyVars(HttpMock, o.httpMocks), LocalStack, o.localStack, v);
  }

  lemma LastVisitedDecides(o: Orders, v: Var)
    requires VisitedLast(o, v)
    ensures Decides(AllVars(o), v)
  {
    DatabaseLoops(o, v);
    OtherLoops(o, DatabaseVars(o), v);
  }

  lemma OrdersEndingIn(s: Stack, v: Var) returns (o: Orders)
    requires In(v, s)
    ensures Visits(o, s) && VisitedLast(o, v)
  {
    var p := SomeOrder(s.postgres.Keys);
    var c := SomeOrder(s.clickHouse.Keys);
    var r := SomeOrder(s.redis.Keys);
    var k := SomeOrder(s.kafka.Keys);
    var h := SomeOrder(s.httpMocks.Keys);
    var l := SomeOrder(s.localStack.Keys);
    var last := OrderEnding(Names(s, FamilyOf(v.f)), v.name);
    o := Orders(p, c, r, k, h, l);
    match FamilyOf(v.f) {
      case Postgres => o := o.(postgres := last);
      case ClickHouse => o := o.(clickHouse := last);
      case Redis => o := o.(redis := last);
      case Kafka => o := o.(kafka := last);
      case HttpMock => o := o.(httpMocks := last);
      case LocalStack => o := o.(localStack := last);
    }
  }

  lemma {:induction false} SomeOrdersKeep(s: Stack, v: Var) returns (o: Orders)
    requires In(v, s)
    ensures Visits(o, s)
    ensures var out := ExportIn(s, o); KeyOf(v) in out && out[KeyOf(v)] == ValueOf(s, v)
  {
    o := OrdersEndingIn(s, v);
    LastVisitedDecides(o, v);
    var front, back :| AllVars(o) == front + [v] + back && KeyNotIn(back, v);
    LastWins(front, KeyOf, ValuesOf(s), v, back);
  }

  ghost predicate OrderIndependent(s: Stack) {
    forall o, o' :: Visits(o, s) && Visits(o', s) ==> ExportIn(s, o) == ExportIn(s, o')
  }

  // The export is the same for all orders of iteration exactly when variables that share
  // a key agree.
  lemma {:induction false} OrderIndependentIffAgree(s: Stack)
    ensures OrderIndependent(s) <==> CollisionsAgree(Vars(s), KeyOf, ValuesOf(s))
  {
    if CollisionsAgree(Vars(s), KeyOf, ValuesOf(s)) {
      forall o, o' | Visits(o, s) && Visits(o', s) ensures ExportIn(s, o) == ExportIn(s, o') {
        LoopsAreExport(s, o);
        LoopsAreExport(s, o');
        ExportOrderIrrelevant(s, ExportIn(s, o), ExportIn(s, o'));
      }
    } else {
      var v, w :| v in Vars(s) && w in Vars(s) && KeyOf(v) == KeyOf(w) && ValueOf(s, v) != ValueOf(s, w);
      var o := SomeOrdersKeep(s, v);
      var o' := SomeOrdersKeep(s, w);
      assert ExportIn(s, o) != ExportIn(s, o');
    }
  }

  // ---- its size ----

  function FieldCount(family: Family): nat {
    match family
    case Postgres | Kafka | HttpMock => 1
    case ClickHouse | Redis => 2
    case LocalStack => 4
  }

  lemma VarsOfOne(family: Family, n: string)
    ensures |VarsOf(family, n)| == FieldCount(family) && NoRepeats(VarsOf(family, n))
  {
  }

  lemma {:induction false} FamilyVarsDistinct(family: Family, order: seq<string>)
    requires NoRepeats(order)
    ensures NoRepeats(FamilyVars(family, order))
    ensures |FamilyVars(family, order)| == FieldCount(family) * |order|
  {
    if order != [] {
      var front, n := order[..|order| - 1], order[|order| - 1];
      FamilyVarsDistinct(family, front);
      VarsOfOne(family, n);
      forall v | v in FamilyVars(family, front) ensures v !in VarsOf(family, n) {
        FamilyVarsAre(family, front, v);
        VarsOfAre(family, n, v);
      }
      DistinctConcat(FamilyVars(family, front), VarsOf(family, n));
      assert FieldCount(family) * (|order| - 1) + FieldCount(family) == FieldCount(family) * |order|;
    }
  }

  // These n variables are distinct and of the first r families.
  ghost predicate Counted(vars: seq<Var>, r: nat, n: nat) {
    NoRepeats(vars) && |vars| == n && forall v :: v in vars ==> Rank(FamilyOf(v.f)) < r
  }

  lemma {:induction false} NextFamily(done: seq<Var>, r: nat, n: nat, family: Family, order: seq<string>)
    requires Counted(done, r, n) && Rank(family) == r
    requires NoRepeats(order)
    ensures Counted(done + FamilyVars(family, order), r + 1, n + FieldCount(family) * |order|)
  {
    FamilyVarsDistinct(family, order);
    forall v | v in FamilyVars(family, order) ensures FamilyOf(v.f) == family {
      FamilyVarsAre(family, order, v);
    }
    DistinctConcat(done, FamilyVars(family, order));
  }

  lemma FirstFamily(order: seq<string>)
    requires NoRepeats(order)
    ensures Counted(FamilyVars(Postgres, order), 1, |order|)
  {
    NextFamily([], 0, 0, Postgres, order);
    assert [] + FamilyVars(Postgres, order) == FamilyVars(Postgres, order);
  }

  lemma DatabasesDistinct(s: Stack, o: Orders)
    requires Visits(o, s)
    ensures Counted(DatabaseVars(o), 3, |o.postgres| + 2 * |o.clickHouse| + 2 * |o.redis|)
  {
    FirstFamily(o.postgres);
    NextFamily(FamilyVars(Postgres, o.postgres), 1, |o.postgres|, ClickHouse, o.clickHouse);
    NextFamily(FamilyVars(Postgres, o.postgres) + FamilyVars(ClickHouse, o.clickHouse), 2,
               |o.postgres| + 2 * |o.clickHouse|, Redis, o.redis);
  }

  // Every variable is assigned once.
  lemma AllVarsDistinct(s: Stack, o: Orders)
    requires Visits(o, s)
    ensures Counted(AllVars(o), 6,
              |o.postgres| + 2 * |o.clickHouse| + 2 * |o.redis| + |o.kafka| + |o.httpMocks| + 4 * |o.localStack|)
  {
    DatabasesDistinct(s, o);
    OthersDistinct(s, o, DatabaseVars(o), |o.postgres| + 2 * |o.clickHouse| + 2 * |o.redis|);
  }

  lemma OthersDistinct(s: Stack, o: Orders, done: seq<Var>, n: nat)
    requires Visits(o, s) && Counted(done, 3, n)
    ensures Counted(done + FamilyVars(Kafka, o.kafka) + FamilyVars(HttpMock, o.httpMocks) +
                    FamilyVars(LocalStack, o.localStack),
                    6, n + |o.kafka| + |o.httpMocks| + 4 * |o.localStack|)
  {
    NextFamily(done, 3, n, Kafka, o.kafka);
    NextFamily(done + FamilyVars(Kafka, o.kafka), 4, n + |o.kafka|, HttpMock, o.httpMocks);
    NextFamily(done + FamilyVars(Kafka, o.kafka) + FamilyVars(HttpMock, o.httpMocks), 5,
               n + |o.kafka| + |o.httpMocks|, LocalStack, o.localStack);
  }

  lemma MapSize<V>(m: map<string, V>) returns (order: seq<string>)
    ensures IsOrderOf(order, m.Keys) && |order| == |m|
  {
    order := SomeOrder(m.Keys);
    OrderSize(order, m.Keys);
    assert |m.Keys| == |m|;
  }

  // Four fields of a LocalStack instance, two of a ClickHouse or Redis instance, one of the
  // others.
  function FieldsOf(s: Stack): nat {
    |s.postgres| + 2 * |s.clickHouse| + 2 * |s.redis| + |s.kafka| + |s.httpMocks| + 4 * |s.localStack|
  }

  lemma VarsCount(s: Stack)
    ensures |Vars(s)| == FieldsOf(s)
  {
    var p := MapSize(s.postgres);
    var c := MapSize(s.clickHouse);
    var r := MapSize(s.redis);
    var k := MapSize(s.kafka);
    var h := MapSize(s.httpMocks);
    var l := MapSize(s.localStack);
    var o := Orders(p, c, r, k, h, l);
    AllVarsAre(s, o);
    AllVarsDistinct(s, o);
    DistinctSize(AllVars(o));
  }

  // The export has one entry for each field of each instance exactly when no two
  // variables share a key, and fewer otherwise.
  lemma ExportSize(s: Stack, out: map<string, string>)
    requires Exports(s, out)
    ensures |out| <= FieldsOf(s)
    ensures |out| == FieldsOf(s) <==> NoCollision(Vars(s), KeyOf)
  {
    Size(out, Vars(s), KeyOf, ValuesOf(s));
    VarsCount(s);
  }
}
