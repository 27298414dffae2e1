// dag_serialize and dag_deserialize, written with a moving offset as the C code does.

module DagRoutines {
  import opened Bytes
  import opened Common
  import opened Dags
  import opened DagFormat
  import opened DagCodec

  method WriteName(buffer: array<Byte>, at: nat, name: seq<Byte>) returns (next: nat)
    requires at + |EncodeName(name)| <= buffer.Length
    modifies buffer
    ensures next == at + |EncodeName(name)|
    ensures buffer[..next] == old(buffer[..at]) + EncodeName(name)
    ensures forall i | next <= i < buffer.Length :: buffer[i] == old(buffer[i])
  {
    var text := CString(name);
    var p := Put(buffer, at, Word(|text|));
    next := Put(buffer, p, text);
  }

  lemma DependenciesFrom(before: seq<Byte>, ds: seq<Word32>, j: nat)
    requires j < |ds|
    ensures before + EncodeDependencies(ds[j..]) == before + Word(ds[j]) + EncodeDependencies(ds[j + 1..])
  {
    assert ds[j..][1..] == ds[j + 1..];
    assert before + (Word(ds[j]) + EncodeDependencies(ds[j + 1..])) ==
              before + Word(ds[j]) + EncodeDependencies(ds[j + 1..]);
  }

  method WriteLinks(buffer: array<Byte>, at: nat, ds: seq<Word32>) returns (next: nat)
    requires at + |EncodeLinks(ds)| <= buffer.Length
    modifies buffer
    ensures next == at + |EncodeLinks(ds)|
    ensures buffer[..next] == old(buffer[..at]) + EncodeLinks(ds)
    ensures forall i | next <= i < buffer.Length :: buffer[i] == old(buffer[i])
  {
    hide BigEndian, Word;
    next := Put(buffer, at, Word(|ds|));
    ghost var whole := old(buffer[..at]) + EncodeLinks(ds);
    ghost var end := at + |EncodeLinks(ds)|;
    assert ds[0..] == ds;
    for j := 0 to |ds|
      invariant next == at + 4 + 4 * j <= end <= buffer.Length
      invariant buffer[..next] + EncodeDependencies(ds[j..]) == whole
      invariant forall i | end <= i < buffer.Length :: buffer[i] == old(buffer[i])
    {
      DependenciesFrom(buffer[..next], ds, j);
      next := Put(buffer, next, Word(ds[j]));
    }
    assert buffer[..next] + [] == buffer[..next];
  }

  method WriteTitle(buffer: array<Byte>, at: nat, s: Step) returns (next: nat)
    requires at + |EncodeTitle(s)| <= buffer.Length
    modifies buffer
    ensures next == at + |EncodeTitle(s)|
    ensures buffer[..next] == old(buffer[..at]) + EncodeTitle(s)
    ensures forall i | next <= i < buffer.Length :: buffer[i] == old(buffer[i])
  {
    hide EncodeName, BigEndian, Word, CString;
    ghost var before := old(buffer[..at]);
    next := Put(buffer, at, Word(s.id));
    next := WriteName(buffer, next, s.name);
    assert buffer[..next] == before + (Word(s.id) + EncodeName(s.name));
    next := WriteName(buffer, next, s.functionName);
    assert buffer[..next] == before + EncodeTitle(s);
  }

  method WriteSettings(buffer: array<Byte>, at: nat, s: Step) returns (next: nat)
    requires at + |EncodeSettings(s)| <= buffer.Length
    modifies buffer
    ensures next == at + |EncodeSettings(s)|
    ensures buffer[..next] == old(buffer[..at]) + EncodeSettings(s)
    ensures forall i | next <= i < buffer.Length :: buffer[i] == old(buffer[i])
  {
    next := Put(buffer, at, Word(s.timeout));
    next := Put(buffer, next, [s.maxRetries]);
    next := Put(buffer, next, Word(s.configLen));
    if s.configLen > 0 && s.config.Some? {
      next := Put(buffer, next, s.config.value);
    }
  }

  method WriteStep(buffer: array<Byte>, at: nat, s: Step) returns (next: nat)
    requires at + |EncodeStep(s)| <= buffer.Length
    modifies buffer
    ensures next == at + |EncodeStep(s)|
    ensures buffer[..next] == old(buffer[..at]) + EncodeStep(s)
    ensures forall i | next <= i < buffer.Length :: buffer[i] == old(buffer[i])
  {
    hide EncodeTitle, EncodeLinks, EncodeSettings;
    next := WriteTitle(buffer, at, s);
    next := WriteLinks(buffer, next, s.dependencies);
    next := WriteSettings(buffer, next, s);
  }

  method ComputeSize(d: Dag) returns (size: nat)
    ensures size == RequiredSize(d)
  {
    size := 4 + 8 + 4 + |CString(d.name)| + 4;
    assert d.steps[0..] == d.steps;
    for i := 0 to |d.steps|
      invariant size + StepsSize(d.steps[i..]) == RequiredSize(d)
    {
      assert d.steps[i..][1..] == d.steps[i + 1..];
      size := size + StepSize(d.steps[i]);
    }
  }

  method WriteHeader(buffer: array<Byte>, d: Dag) returns (next: nat)
    requires |EncodeHeader(d)| + 4 <= buffer.Length
    modifies buffer
    ensures next == |EncodeHeader(d)| + 4
    ensures buffer[..next] == EncodeHeader(d) + Word(|d.steps|)
    ensures forall i | next <= i < buffer.Length :: buffer[i] == old(buffer[i])
  {
    hide Word, BigEndian, EncodeName;
    next := Put(buffer, 0, Word(d.id));
    next := Put(buffer, next, BigEndian(d.version, 8));
    next := WriteName(buffer, next, d.name);
    assert buffer[..next] == Word(d.id) + (BigEndian(d.version, 8) + EncodeName(d.name));
    next := Put(buffer, next, Word(|d.steps|));
  }

  lemma StepsFrom(before: seq<Byte>, ss: seq<Step>, i: nat)
    requires i < |ss|
    ensures before + EncodeSteps(ss[i..]) == before + EncodeStep(ss[i]) + EncodeSteps(ss[i + 1..])
  {
    assert ss[i..][1..] == ss[i + 1..];
    assert before + (EncodeStep(ss[i]) + EncodeSteps(ss[i + 1..])) ==
              before + EncodeStep(ss[i]) + EncodeSteps(ss[i + 1..]);
  }

  lemma NoSteps(ss: seq<Step>)
    ensures EncodeSteps(ss[|ss|..]) == []
  {
  }

  /** Writes the encoding at the start of the buffer, or nothing when the computed size does not fit. */
  method Serialize(d: Dag, buffer: array<Byte>) returns (n: nat)
    requires SizedConfigs(d.steps)
    modifies buffer
    ensures buffer.Length < RequiredSize(d) ==> n == 0 && buffer[..] == old(buffer[..])
    ensures buffer.Length >= RequiredSize(d) ==>
              && n == |EncodeDag(d)| <= buffer.Length && buffer[..n] == EncodeDag(d)
              && forall i | n <= i < buffer.Length :: buffer[i] == old(buffer[i])
  {
    hide EncodeStep, EncodeHeader, RequiredSize, EncodeSteps;
    var required := ComputeSize(d);
    if buffer.Length < required {
      return 0;
    }
    WrittenIsRequired(d);
    ghost var end := |EncodeDag(d)|;
    n := WriteHeader(buffer, d);
    ghost var ss := d.steps;
    assert ss[0..] == ss;
    for i := 0 to |d.steps|
      invariant n <= end <= buffer.Length
      invariant buffer[..n] + EncodeSteps(ss[i..]) == EncodeDag(d)
      invariant forall i | end <= i < buffer.Length :: buffer[i] == old(buffer[i])
    {
      StepsFrom(buffer[..n], ss, i);
      n := WriteStep(buffer, n, d.steps[i]);
    }
    NoSteps(ss);
    assert buffer[..n] + [] == buffer[..n];
  }

  /** What a loop that has already read xs returns when the rest reads as r. */
  function Prepend<T>(xs: seq<T>, r: Option<(seq<T>, nat)>): Option<(seq<T>, nat)> {
    match r case None => None case Some((rest, z)) => Some((xs + rest, z))
  }

  lemma PrependNothing<T>(r: Option<(seq<T>, nat)>)
    ensures Prepend([], r) == r
  {
    if r.Some? {
      assert [] + r.value.0 == r.value.0;
    }
  }

  lemma PrependOne<T>(xs: seq<T>, x: T, r: Option<(seq<T>, nat)>)
    ensures Prepend(xs, Prepend([x], r)) == Prepend(xs + [x], r)
  {
    if r.Some? {
      assert xs + ([x] + r.value.0) == xs + [x] + r.value.0;
    }
  }

  /** The loop over dependency_count dependencies. */
  method TakeDependencies(b: seq<Byte>, at: nat, n: nat) returns (r: Option<(seq<Word32>, nat)>)
    requires at <= |b|
    ensures r == ReadDependencies(b, at, n)
  {
    var ds, p := [], at;
    PrependNothing(ReadDependencies(b, at, n));
    for j := 0 to n
      invariant at <= p <= |b|
      invariant ReadDependencies(b, at, n) == Prepend(ds, ReadDependencies(b, p, n - j))
    {
      var word := ReadWord(b, p);
      if word.None? {
        return None;
      }
      PrependOne(ds, word.value.0, ReadDependencies(b, word.value.1, n - j - 1));
      ds := ds + [word.value.0];
      p := word.value.1;
    }
    assert ds + [] == ds;
    r := Some((ds, p));
  }

  /** The loop over step_count steps. */
  method TakeSteps(b: seq<Byte>, at: nat, n: nat) returns (r: Option<(seq<Step>, nat)>)
    requires at <= |b|
    ensures r == ReadSteps(b, at, n)
  {
    hide ReadStep;
    var ss, p := [], at;
    PrependNothing(ReadSteps(b, at, n));
    for i := 0 to n
      invariant at <= p <= |b|
      invariant ReadSteps(b, at, n) == Prepend(ss, ReadSteps(b, p, n - i))
    {
      var step := TakeStep(b, p);
      if step.None? {
        return None;
      }
      PrependOne(ss, step.value.0, ReadSteps(b, step.value.1, n - i - 1));
      ss := ss + [step.value.0];
      p := step.value.1;
    }
    assert ss + [] == ss;
    r := Some((ss, p));
  }

  method TakeStep(b: seq<Byte>, at: nat) returns (r: Option<(Step, nat)>)
    requires at <= |b|
    ensures r == ReadStep(b, at)
  {
    var title := ReadTitle(b, at);
    if title.None? {
      return None;
    }
    var count := ReadWord(b, title.value.1);
    if count.None? || count.value.0 > MAX_STEP_DEPENDENCIES {
      return None;
    }
    var links := TakeDependencies(b, count.value.1, count.value.0);
    if links.None? {
      return None;
    }
    var settings := ReadSettings(b, links.value.1);
    if settings.None? {
      return None;
    }
    r := Some((StepOf(title.value.0, links.value.0, settings.value.0), settings.value.1));
  }

  /** Reads one DAG from the first len bytes of the buffer; trailing bytes are ignored. */
  method Deserialize(buffer: array<Byte>, len: nat, now: nat) returns (d: Option<Dag>)
    requires len <= buffer.Length
    ensures d.Some? <==> ReadDag(buffer[..len], now).Some?
    ensures d.Some? ==> d.value == ReadDag(buffer[..len], now).value.0
  {
    var b := buffer[..len];
    if len < 16 {
      return None;
    }
    var header := ReadHeader(b, 0);
    if header.None? {
      return None;
    }
    var count := ReadWord(b, header.value.1);
    if count.None? || count.value.0 > MAX_DAG_STEPS {
      return None;
    }
    var steps := TakeSteps(b, count.value.1, count.value.0);
    if steps.None? {
      return None;
    }
    var (id, version, name) := header.value.0;
    d := Some(Dag(id, name, version, steps.value.0, now, now));
  }
}
