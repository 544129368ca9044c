// The names of the exported environment variables and when two of them coincide.
module EnvKeys {
  import opened Text

  // ^[a-z][a-z0-9_-]*$
  predicate ValidName(name: string) {
    name != "" && 'a' <= name[0] <= 'z' && forall i :: 0 <= i < |name| ==> NameChar(name[i])
  }

  predicate NameChar(c: char) {
    'a' <= c <= 'z' || '0' <= c <= '9' || c == '_' || c == '-'
  }

  function EnvFragment(s: string): string {
    if s == "" then "" else ReplaceAll(ToUpper(s), "-", "_")
  }

  datatype Family = Postgres | ClickHouse | Redis | Kafka | HttpMock | LocalStack

  datatype Field =
    | PostgresDsn
    | ClickHouseDsn | ClickHouseHttpDsn
    | RedisAddr | RedisUrl
    | KafkaBrokers
    | HttpMockBaseUrl
    | LocalStackEndpoint | LocalStackRegion | LocalStackAccessKeyId | LocalStackSecretAccessKey

  function FamilyOf(f: Field): Family {
    match f
    case PostgresDsn => Postgres
    case ClickHouseDsn | ClickHouseHttpDsn => ClickHouse
    case RedisAddr | RedisUrl => Redis
    case KafkaBrokers => Kafka
    case HttpMockBaseUrl => HttpMock
    case _ => LocalStack
  }

  function Head(family: Family): string {
    match family
    case Postgres => "POSTGRES_"
    case ClickHouse => "CLICKHOUSE_"
    case Redis => "REDIS_"
    case Kafka => "KAFKA_"
    case HttpMock => "HTTPMOCK_"
    case LocalStack => "LOCALSTACK_"
  }

  function Tail(f: Field): string {
    match f
    case PostgresDsn => "_DSN"
    case ClickHouseDsn => "_DSN"
    case ClickHouseHttpDsn => "_HTTP_DSN"
    case RedisAddr => "_ADDR"
    case RedisUrl => "_URL"
    case KafkaBrokers => "_BROKERS"
    case HttpMockBaseUrl => "_BASE_URL"
    case LocalStackEndpoint => "_ENDPOINT"
    case LocalStackRegion => "_REGION"
    case LocalStackAccessKeyId => "_ACCESS_KEY_ID"
    case LocalStackSecretAccessKey => "_SECRET_ACCESS_KEY"
  }

  function Key(f: Field, name: string): string {
    Head(FamilyOf(f)) + EnvFragment(name) + Tail(f)
  }

  // ---- fragments ----

  function Underscored(c: char): char {
    if c == '-' then '_' else c
  }

  // The names are equal up to '-' versus '_'.
  predicate SameUpToDash(m: string, n: string) {
    |m| == |n| && forall i :: 0 <= i < |m| ==> Underscored(m[i]) == Underscored(n[i])
  }

  lemma {:induction false} ReplaceDash(s: string)
    ensures var r := ReplaceAll(s, "-", "_");
            |r| == |s| && forall i :: 0 <= i < |s| ==> r[i] == Underscored(s[i])
  {
    if s != "" {
      assert s[..1] == [s[0]];
      ReplaceDash(s[1..]);
      assert ReplaceAll(s, "-", "_") == [Underscored(s[0])] + ReplaceAll(s[1..], "-", "_");
    }
  }

  lemma FragmentChars(s: string)
    ensures |EnvFragment(s)| == |s|
    ensures forall i :: 0 <= i < |s| ==> EnvFragment(s)[i] == Underscored(UpperChar(s[i]))
  {
    ReplaceDash(ToUpper(s));
  }

  lemma SameFragment(m: string, n: string)
    requires ValidName(m) && ValidName(n)
    ensures EnvFragment(m) == EnvFragment(n) <==> SameUpToDash(m, n)
  {
    FragmentChars(m);
    FragmentChars(n);
    if EnvFragment(m) == EnvFragment(n) {
      forall i | 0 <= i < |m| ensures Underscored(m[i]) == Underscored(n[i]) {
        assert NameChar(m[i]) && NameChar(n[i]);
        assert Underscored(UpperChar(m[i])) == Underscored(UpperChar(n[i]));
      }
    }
  }

  // ---- keys ----

  lemma CancelSides(h: string, x: string, y: string, t: string)
    ensures h + x + t == h + y + t <==> x == y
  {
    if h + x + t == h + y + t {
      assert |x| == |y|;
      assert (h + x + t)[|h|..|h| + |x|] == x;
      assert (h + y + t)[|h|..|h| + |y|] == y;
    }
  }

  function Initial(family: Family): char {
    match family
    case Postgres => 'P'
    case ClickHouse => 'C'
    case Redis => 'R'
    case Kafka => 'K'
    case HttpMock => 'H'
    case LocalStack => 'L'
  }

  function Final(f: Field): char {
    match f
    case PostgresDsn | ClickHouseDsn | ClickHouseHttpDsn | LocalStackRegion => 'N'
    case RedisAddr => 'R'
    case RedisUrl | HttpMockBaseUrl => 'L'
    case KafkaBrokers => 'S'
    case LocalStackEndpoint => 'T'
    case LocalStackAccessKeyId => 'D'
    case LocalStackSecretAccessKey => 'Y'
  }

  lemma KeyEnds(f: Field, name: string)
    ensures var k := Key(f, name);
            k != "" && k[0] == Initial(FamilyOf(f)) && k[|k| - 1] == Final(f)
  {
    HeadStarts(FamilyOf(f));
    TailEnds(f);
  }

  lemma HeadStarts(family: Family)
    ensures Head(family) != "" && Head(family)[0] == Initial(family)
  {
  }

  lemma TailEnds(f: Field)
    ensures Tail(f) != "" && Tail(f)[|Tail(f)| - 1] == Final(f)
  {
  }

  // The one pair of fields that can meet.
  predicate HttpClash(f: Field, m: string, g: Field, n: string) {
    f == ClickHouseDsn && g == ClickHouseHttpDsn && EnvFragment(m) == EnvFragment(n) + "_HTTP"
  }

  lemma ClashMeans(m: string, n: string)
    ensures Key(ClickHouseDsn, m) == Key(ClickHouseHttpDsn, n) <==> HttpClash(ClickHouseDsn, m, ClickHouseHttpDsn, n)
  {
    var h, x, y := "CLICKHOUSE_", EnvFragment(m), EnvFragment(n);
    assert "_HTTP_DSN" == "_HTTP" + "_DSN";
    assert h + y + ("_HTTP" + "_DSN") == h + (y + "_HTTP") + "_DSN";
    CancelSides(h, x, y + "_HTTP", "_DSN");
  }

  predicate DsnPair(f: Field, g: Field) {
    f == ClickHouseDsn && g == ClickHouseHttpDsn
  }

  // No other two fields have keys that begin and end alike.
  lemma EndsDecide(f: Field, g: Field)
    requires f != g && Initial(FamilyOf(f)) == Initial(FamilyOf(g)) && Final(f) == Final(g)
    ensures DsnPair(f, g) || DsnPair(g, f)
  {
  }

  lemma KeysDecide(f: Field, m: string, g: Field, n: string)
    requires f != g && Key(f, m) == Key(g, n)
    ensures DsnPair(f, g) || DsnPair(g, f)
  {
    KeyEnds(f, m);
    KeyEnds(g, n);
    EndsDecide(f, g);
  }

  lemma SameFieldCollides(f: Field, m: string, n: string)
    requires ValidName(m) && ValidName(n)
    ensures Key(f, m) == Key(f, n) <==> SameUpToDash(m, n)
  {
    CancelSides(Head(FamilyOf(f)), EnvFragment(m), EnvFragment(n), Tail(f));
    SameFragment(m, n);
  }

  lemma OtherFieldCollides(f: Field, m: string, g: Field, n: string)
    requires f != g
    ensures Key(f, m) == Key(g, n) <==> HttpClash(f, m, g, n) || HttpClash(g, n, f, m)
  {
    if DsnPair(f, g) {
      ClashMeans(m, n);
    } else if DsnPair(g, f) {
      ClashMeans(n, m);
    } else if Key(f, m) == Key(g, n) {
      KeysDecide(f, m, g, n);
    }
  }

  // Two variables coincide exactly when they are the same field of instances whose names
  // differ only in '-' and '_', or a ClickHouse DSN and HTTP DSN whose fragments differ by
  // a trailing "_HTTP".
  lemma Collisions(f: Field, m: string, g: Field, n: string)
    requires ValidName(m) && ValidName(n)
    ensures Key(f, m) == Key(g, n) <==>
            (f == g && SameUpToDash(m, n)) || HttpClash(f, m, g, n) || HttpClash(g, n, f, m)
  {
    if f == g {
      SameFieldCollides(f, m, n);
    } else {
      OtherFieldCollides(f, m, g, n);
    }
  }
}
