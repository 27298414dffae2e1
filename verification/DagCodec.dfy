// What the DAG format promises: round trip, no accepted prefix, one encoding per DAG, exact size.

module DagCodec {
  import opened Bytes
  import opened Common
  import opened Dags
  import opened DagFormat

  // ---------------------------------------------------------------------------
  // What was written is read back
  // ---------------------------------------------------------------------------

  ghost predicate Holds(b: seq<Byte>, at: nat, s: seq<Byte>) {
    at + |s| <= |b| && b[at..at + |s|] == s
  }

  lemma HoldsConcat(b: seq<Byte>, at: nat, s: seq<Byte>, t: seq<Byte>)
    ensures Holds(b, at, s + t) <==> Holds(b, at, s) && Holds(b, at + |s|, t)
  {
    if at + |s| + |t| <= |b| {
      var window := b[at..at + |s + t|];
      assert window == b[at..at + |s|] + b[at + |s|..at + |s| + |t|];
      assert (s + t)[..|s|] == s && (s + t)[|s|..] == t;
    }
  }

  // The layout, by offsets: what a step and a DAG look like on the wire.

  lemma {:induction false} DependencyAt(ds: seq<Word32>, i: nat)
    requires i < |ds|
    ensures Holds(EncodeDependencies(ds), 4 * i, Word(ds[i]))
  {
    hide Word;
    if i > 0 {
      var b, tail := EncodeDependencies(ds), EncodeDependencies(ds[1..]);
      DependencyAt(ds[1..], i - 1);
      assert b[4 * i..4 * i + 4] == tail[4 * (i - 1)..4 * (i - 1) + 4];
    }
  }

  lemma HoldsInside(b: seq<Byte>, at: nat, s: seq<Byte>, k: nat, t: seq<Byte>)
    requires Holds(b, at, s) && Holds(s, k, t)
    ensures Holds(b, at + k, t)
  {
    var w := b[at..at + |s|];
    assert w == s && w[k..k + |t|] == t;
    assert forall i | k <= i < k + |t| :: w[i] == b[at + i];
  }

  lemma StepLayout(s: Step)
    ensures var b, n, f, d := EncodeStep(s), |CString(s.name)|, |CString(s.functionName)|, |s.dependencies|;
            && Holds(b, 0, Word(s.id))
            && Holds(b, 4, Word(n)) && Holds(b, 8, CString(s.name))
            && Holds(b, 8 + n, Word(f)) && Holds(b, 12 + n, CString(s.functionName))
            && Holds(b, 12 + n + f, Word(d))
            && (forall i | 0 <= i < d :: Holds(b, 16 + n + f + 4 * i, Word(s.dependencies[i])))
            && Holds(b, 16 + n + f + 4 * d, Word(s.timeout)) && Holds(b, 20 + n + f + 4 * d, [s.maxRetries])
            && Holds(b, 21 + n + f + 4 * d, Word(s.configLen)) && Holds(b, 25 + n + f + 4 * d, EncodeConfig(s))
  {
    hide Word, Holds, CString, EncodeDependencies, EncodeConfig;
    var b, n, f, d := EncodeStep(s), |CString(s.name)|, |CString(s.functionName)|, |s.dependencies|;
    HoldsAll(b);
    HoldsConcat(b, 0, EncodeTitle(s), EncodeLinks(s.dependencies) + EncodeSettings(s));
    HoldsConcat(b, 0, Word(s.id), EncodeName(s.name) + EncodeName(s.functionName));
    HoldsConcat(b, 4, EncodeName(s.name), EncodeName(s.functionName));
    HoldsConcat(b, 4, Word(n), CString(s.name));
    HoldsConcat(b, 8 + n, Word(f), CString(s.functionName));
    var at := 12 + n + f;
    HoldsConcat(b, at, EncodeLinks(s.dependencies), EncodeSettings(s));
    HoldsConcat(b, at, Word(d), EncodeDependencies(s.dependencies));
    forall i | 0 <= i < d
      ensures Holds(b, at + 4 + 4 * i, Word(s.dependencies[i]))
    {
      DependencyAt(s.dependencies, i);
      HoldsInside(b, at + 4, EncodeDependencies(s.dependencies), 4 * i, Word(s.dependencies[i]));
    }
    at := at + 4 + 4 * d;
    HoldsConcat(b, at, Word(s.timeout), [s.maxRetries] + (Word(s.configLen) + EncodeConfig(s)));
    HoldsConcat(b, at + 4, [s.maxRetries], Word(s.configLen) + EncodeConfig(s));
    HoldsConcat(b, at + 5, Word(s.configLen), EncodeConfig(s));
  }

  lemma HoldsAll(b: seq<Byte>)
    ensures Holds(b, 0, b)
  {
    assert b[0..|b|] == b;
  }

  lemma {:induction false} StepAt(ss: seq<Step>, i: nat)
    requires i < |ss|
    ensures Holds(EncodeSteps(ss), |EncodeSteps(ss[..i])|, EncodeStep(ss[i]))
  {
    hide EncodeStep, Holds;
    var b := EncodeSteps(ss);
    HoldsAll(b);
    HoldsConcat(b, 0, EncodeStep(ss[0]), EncodeSteps(ss[1..]));
    if i > 0 {
      StepAt(ss[1..], i - 1);
      assert ss[..i][1..] == ss[1..][..i - 1];
      HoldsInside(b, |EncodeStep(ss[0])|, EncodeSteps(ss[1..]), |EncodeSteps(ss[1..][..i - 1])|, EncodeStep(ss[i]));
    }
  }

  lemma DagLayout(d: Dag)
    ensures var b, n := EncodeDag(d), |CString(d.name)|;
            && Holds(b, 0, Word(d.id)) && Holds(b, 4, BigEndian(d.version, 8))
            && Holds(b, 12, Word(n)) && Holds(b, 16, CString(d.name))
            && Holds(b, 16 + n, Word(|d.steps|))
            && forall i | 0 <= i < |d.steps| ::
                 Holds(b, 20 + n + |EncodeSteps(d.steps[..i])|, EncodeStep(d.steps[i]))
  {
    hide Word, BigEndian, Holds, CString, EncodeSteps, EncodeStep;
    var b, n := EncodeDag(d), |CString(d.name)|;
    HoldsAll(b);
    HoldsConcat(b, 0, EncodeHeader(d), Word(|d.steps|) + EncodeSteps(d.steps));
    HoldsConcat(b, 0, Word(d.id), BigEndian(d.version, 8) + EncodeName(d.name));
    HoldsConcat(b, 4, BigEndian(d.version, 8), EncodeName(d.name));
    HoldsConcat(b, 12, Word(n), CString(d.name));
    HoldsConcat(b, 16 + n, Word(|d.steps|), EncodeSteps(d.steps));
    forall i | 0 <= i < |d.steps|
      ensures Holds(b, 20 + n + |EncodeSteps(d.steps[..i])|, EncodeStep(d.steps[i]))
    {
      StepAt(d.steps, i);
      HoldsInside(b, 20 + n, EncodeSteps(d.steps), |EncodeSteps(d.steps[..i])|, EncodeStep(d.steps[i]));
    }
  }

  lemma WordRead(b: seq<Byte>, at: nat, v: nat)
    requires v < 0x1_0000_0000 && Holds(b, at, Word(v))
    ensures ReadWord(b, at) == Some((v, at + 4))
  {
    hide BigEndian, Value;
    WordSizes();
    ValueOfBigEndian(v, 4);
  }

  lemma LongRead(b: seq<Byte>, at: nat, v: Word64)
    requires Holds(b, at, BigEndian(v, 8))
    ensures ReadLong(b, at) == Some((v, at + 8))
  {
    hide BigEndian, Value;
    WordSizes();
    ValueOfBigEndian(v, 8);
  }

  lemma NameRead(b: seq<Byte>, at: nat, name: seq<Byte>, limit: nat)
    requires NulFree(name) && |name| < limit <= 0x1_0000_0000 && Holds(b, at, EncodeName(name))
    ensures ReadName(b, at, limit) == Some((name, at + |EncodeName(name)|))
  {
    CStringWhole(name);
    HoldsConcat(b, at, Word(|name|), name);
    WordRead(b, at, |name|);
  }

  lemma {:induction false} DependenciesRead(b: seq<Byte>, at: nat, ds: seq<Word32>)
    requires Holds(b, at, EncodeDependencies(ds))
    ensures ReadDependencies(b, at, |ds|) == Some((ds, at + 4 * |ds|))
    decreases |ds|
  {
    if |ds| > 0 {
      HoldsConcat(b, at, Word(ds[0]), EncodeDependencies(ds[1..]));
      WordRead(b, at, ds[0]);
      DependenciesRead(b, at + 4, ds[1..]);
      assert ds == [ds[0]] + ds[1..];
    }
  }

  lemma TitleRead(b: seq<Byte>, at: nat, s: Step)
    requires WellFormedStep(s) && Holds(b, at, EncodeTitle(s))
    ensures ReadTitle(b, at) == Some(((s.id, s.name, s.functionName), at + |EncodeTitle(s)|))
  {
    HoldsConcat(b, at, Word(s.id), EncodeName(s.name) + EncodeName(s.functionName));
    HoldsConcat(b, at + 4, EncodeName(s.name), EncodeName(s.functionName));
    WordRead(b, at, s.id);
    NameRead(b, at + 4, s.name, MAX_STEP_NAME);
    NameRead(b, at + 4 + |EncodeName(s.name)|, s.functionName, MAX_STEP_NAME);
  }

  lemma LinksRead(b: seq<Byte>, at: nat, ds: seq<Word32>)
    requires |ds| <= MAX_STEP_DEPENDENCIES && Holds(b, at, EncodeLinks(ds))
    ensures ReadLinks(b, at) == Some((ds, at + |EncodeLinks(ds)|))
  {
    hide Holds, ReadWord, ReadDependencies, EncodeDependencies, BigEndian;
    HoldsConcat(b, at, Word(|ds|), EncodeDependencies(ds));
    WordRead(b, at, |ds|);
    DependenciesRead(b, at + 4, ds);
  }

  lemma SettingsRead(b: seq<Byte>, at: nat, s: Step)
    requires WellFormedStep(s) && Holds(b, at, EncodeSettings(s))
    ensures ReadSettings(b, at) == Some(((s.timeout, s.maxRetries, EncodeConfig(s)), at + |EncodeSettings(s)|))
  {
    HoldsConcat(b, at, Word(s.timeout), [s.maxRetries] + (Word(s.configLen) + EncodeConfig(s)));
    HoldsConcat(b, at + 4, [s.maxRetries], Word(s.configLen) + EncodeConfig(s));
    HoldsConcat(b, at + 5, Word(s.configLen), EncodeConfig(s));
    WordRead(b, at, s.timeout);
    WordRead(b, at + 5, s.configLen);
  }

  lemma StepOfParts(s: Step)
    requires WellFormedStep(s)
    ensures StepOf((s.id, s.name, s.functionName), s.dependencies, (s.timeout, s.maxRetries, EncodeConfig(s))) == s
  {
  }

  lemma StepAssembled(b: seq<Byte>, at: nat, p: nat, q: nat, z: nat, s: Step)
    requires WellFormedStep(s) && at <= p <= q <= z <= |b|
    requires ReadTitle(b, at) == Some(((s.id, s.name, s.functionName), p))
    requires ReadLinks(b, p) == Some((s.dependencies, q))
    requires ReadSettings(b, q) == Some(((s.timeout, s.maxRetries, EncodeConfig(s)), z))
    ensures ReadStep(b, at) == Some((s, z))
  {
    StepOfParts(s);
  }

  lemma HoldsThree(b: seq<Byte>, at: nat, s: seq<Byte>, t: seq<Byte>, u: seq<Byte>)
    requires Holds(b, at, s + (t + u))
    ensures Holds(b, at, s) && Holds(b, at + |s|, t) && Holds(b, at + |s| + |t|, u)
  {
    HoldsConcat(b, at, s, t + u);
    HoldsConcat(b, at + |s|, t, u);
  }

  lemma StepRead(b: seq<Byte>, at: nat, s: Step)
    requires WellFormedStep(s) && Holds(b, at, EncodeStep(s))
    ensures ReadStep(b, at) == Some((s, at + |EncodeStep(s)|))
  {
    hide EncodeTitle, EncodeLinks, EncodeSettings, ReadTitle, ReadLinks, ReadSettings, ReadStep, Holds;
    var p := at + |EncodeTitle(s)|;
    var q := p + |EncodeLinks(s.dependencies)|;
    HoldsThree(b, at, EncodeTitle(s), EncodeLinks(s.dependencies), EncodeSettings(s));
    TitleRead(b, at, s);
    LinksRead(b, p, s.dependencies);
    SettingsRead(b, q, s);
    StepAssembled(b, at, p, q, q + |EncodeSettings(s)|, s);
  }

  lemma {:induction false} StepsRead(b: seq<Byte>, at: nat, ss: seq<Step>)
    requires (forall i | 0 <= i < |ss| :: WellFormedStep(ss[i])) && Holds(b, at, EncodeSteps(ss))
    ensures ReadSteps(b, at, |ss|) == Some((ss, at + |EncodeSteps(ss)|))
    decreases |ss|
  {
    hide EncodeStep, ReadStep, Holds, WellFormedStep;
    if |ss| > 0 {
      var p := at + |EncodeStep(ss[0])|;
      HoldsConcat(b, at, EncodeStep(ss[0]), EncodeSteps(ss[1..]));
      StepRead(b, at, ss[0]);
      StepsRead(b, p, ss[1..]);
      StepsAssembled(b, at, p, p + |EncodeSteps(ss[1..])|, ss);
    }
  }

  lemma StepsAssembled(b: seq<Byte>, at: nat, p: nat, z: nat, ss: seq<Step>)
    requires |ss| > 0 && at <= p <= z <= |b|
    requires ReadStep(b, at) == Some((ss[0], p))
    requires ReadSteps(b, p, |ss| - 1) == Some((ss[1..], z))
    ensures ReadSteps(b, at, |ss|) == Some((ss, z))
  {
    assert ss == [ss[0]] + ss[1..];
  }

  lemma HeaderRead(b: seq<Byte>, d: Dag)
    requires WellFormed(d) && Holds(b, 0, EncodeHeader(d))
    ensures ReadHeader(b, 0) == Some(((d.id, d.version, d.name), |EncodeHeader(d)|))
  {
    HoldsConcat(b, 0, Word(d.id), BigEndian(d.version, 8) + EncodeName(d.name));
    HoldsConcat(b, 4, BigEndian(d.version, 8), EncodeName(d.name));
    WordRead(b, 0, d.id);
    LongRead(b, 4, d.version);
    NameRead(b, 12, d.name, MAX_DAG_NAME);
  }

  lemma DagAssembled(b: seq<Byte>, p: nat, z: nat, d: Dag, now: nat)
    requires |d.steps| <= MAX_DAG_STEPS && p + 4 <= z <= |b|
    requires ReadHeader(b, 0) == Some(((d.id, d.version, d.name), p))
    requires ReadWord(b, p) == Some((|d.steps|, p + 4))
    requires ReadSteps(b, p + 4, |d.steps|) == Some((d.steps, z))
    ensures ReadDag(b, now) == Some((d.(createdAt := now, updatedAt := now), z))
  {
  }

  /** Decoding an encoding, whatever follows it, gives the DAG back up to its timestamps. */
  lemma RoundTrip(d: Dag, rest: seq<Byte>, now: nat)
    requires WellFormed(d)
    ensures ReadDag(EncodeDag(d) + rest, now) == Some((d.(createdAt := now, updatedAt := now), |EncodeDag(d)|))
  {
    hide EncodeHeader, EncodeSteps, ReadHeader, ReadSteps, ReadDag, WellFormedStep;
    var b := EncodeDag(d) + rest;
    var p := |EncodeHeader(d)|;
    assert Holds(b, 0, EncodeDag(d));
    HoldsThree(b, 0, EncodeHeader(d), Word(|d.steps|), EncodeSteps(d.steps));
    HeaderRead(b, d);
    WordRead(b, p, |d.steps|);
    StepsRead(b, p + 4, d.steps);
    DagAssembled(b, p, p + 4 + |EncodeSteps(d.steps)|, d, now);
  }

  // ---------------------------------------------------------------------------
  // A prefix either reaches the end of what is read, or is rejected
  // ---------------------------------------------------------------------------

  /** What reading from a prefix of k bytes gives, when reading from everything gives r. */
  function Cut<T>(r: Option<(T, nat)>, k: nat): Option<(T, nat)> {
    if r.Some? && r.value.1 <= k then r else None
  }

  lemma WordCut(b: seq<Byte>, at: nat, k: nat)
    requires at <= k <= |b|
    ensures ReadWord(b[..k], at) == Cut(ReadWord(b, at), k)
  {
    if at + 4 <= k {
      assert b[..k][at..at + 4] == b[at..at + 4];
    }
  }

  lemma LongCut(b: seq<Byte>, at: nat, k: nat)
    requires at <= k <= |b|
    ensures ReadLong(b[..k], at) == Cut(ReadLong(b, at), k)
  {
    if at + 8 <= k {
      assert b[..k][at..at + 8] == b[at..at + 8];
    }
  }

  lemma BytesCut(b: seq<Byte>, at: nat, n: nat, k: nat)
    requires at <= k <= |b|
    ensures ReadBytes(b[..k], at, n) == Cut(ReadBytes(b, at, n), k)
  {
    if at + n <= k {
      assert b[..k][at..at + n] == b[at..at + n];
    }
  }

  lemma NameCut(b: seq<Byte>, at: nat, limit: nat, k: nat)
    requires at <= k <= |b|
    ensures ReadName(b[..k], at, limit) == Cut(ReadName(b, at, limit), k)
  {
    WordCut(b, at, k);
    if at + 4 <= k {
      var n := ReadWord(b, at).value.0;
      BytesCut(b, at + 4, n, k);
    }
  }

  lemma {:induction false} DependenciesCut(b: seq<Byte>, at: nat, n: nat, k: nat)
    requires at <= k <= |b|
    ensures ReadDependencies(b[..k], at, n) == Cut(ReadDependencies(b, at, n), k)
    decreases n
  {
    if n > 0 {
      WordCut(b, at, k);
      if at + 4 <= k {
        DependenciesCut(b, at + 4, n - 1, k);
      }
    }
  }

  lemma TitleCut(b: seq<Byte>, at: nat, k: nat)
    requires at <= k <= |b|
    ensures ReadTitle(b[..k], at) == Cut(ReadTitle(b, at), k)
  {
    WordCut(b, at, k);
    if at + 4 <= k {
      NameCut(b, at + 4, MAX_STEP_NAME, k);
      var name := ReadName(b, at + 4, MAX_STEP_NAME);
      if name.Some? && name.value.1 <= k {
        NameCut(b, name.value.1, MAX_STEP_NAME, k);
      }
    }
  }

  lemma LinksCut(b: seq<Byte>, at: nat, k: nat)
    requires at <= k <= |b|
    ensures ReadLinks(b[..k], at) == Cut(ReadLinks(b, at), k)
  {
    WordCut(b, at, k);
    if at + 4 <= k {
      DependenciesCut(b, at + 4, ReadWord(b, at).value.0, k);
    }
  }

  lemma SettingsCut(b: seq<Byte>, at: nat, k: nat)
    requires at <= k <= |b|
    ensures ReadSettings(b[..k], at) == Cut(ReadSettings(b, at), k)
  {
    WordCut(b, at, k);
    if at + 4 <= k {
      BytesCut(b, at + 4, 1, k);
      if at + 5 <= k {
        WordCut(b, at + 5, k);
        if at + 9 <= k {
          BytesCut(b, at + 9, ReadWord(b, at + 5).value.0, k);
        }
      }
    }
  }

  lemma StepCut(b: seq<Byte>, at: nat, k: nat)
    requires at <= k <= |b|
    ensures ReadStep(b[..k], at) == Cut(ReadStep(b, at), k)
  {
    TitleCut(b, at, k);
    var title := ReadTitle(b, at);
    if title.Some? && title.value.1 <= k {
      LinksCut(b, title.value.1, k);
      var links := ReadLinks(b, title.value.1);
      if links.Some? && links.value.1 <= k {
        SettingsCut(b, links.value.1, k);
      }
    }
  }

  lemma {:induction false} StepsCut(b: seq<Byte>, at: nat, n: nat, k: nat)
    requires at <= k <= |b|
    ensures ReadSteps(b[..k], at, n) == Cut(ReadSteps(b, at, n), k)
    decreases n
  {
    hide ReadStep;
    if n > 0 {
      StepCut(b, at, k);
      var step := ReadStep(b, at);
      if step.Some? && step.value.1 <= k {
        StepsCut(b, step.value.1, n - 1, k);
      }
    }
  }

  lemma HeaderCut(b: seq<Byte>, k: nat)
    requires k <= |b|
    ensures ReadHeader(b[..k], 0) == Cut(ReadHeader(b, 0), k)
  {
    WordCut(b, 0, k);
    if 4 <= k {
      LongCut(b, 4, k);
      if 12 <= k {
        NameCut(b, 12, MAX_DAG_NAME, k);
      }
    }
  }

  /** Every buffer that stops short of the last byte read is rejected, and any longer one is
      read the same way. */
  lemma DagCut(b: seq<Byte>, k: nat, now: nat)
    requires k <= |b|
    ensures ReadDag(b[..k], now) == Cut(ReadDag(b, now), k)
  {
    HeaderCut(b, k);
    var header := ReadHeader(b, 0);
    if header.Some? && header.value.1 <= k {
      var p := header.value.1;
      WordCut(b, p, k);
      if p + 4 <= k {
        StepsCut(b, p + 4, ReadWord(b, p).value.0, k);
      }
    }
  }

  /** In particular no proper prefix of an encoding decodes. */
  lemma PrefixRejected(d: Dag, k: nat, now: nat)
    requires WellFormed(d)
    ensures k < |EncodeDag(d)| ==> ReadDag(EncodeDag(d)[..k], now).None?
  {
    if k >= |EncodeDag(d)| {
      return;
    }
    RoundTrip(d, [], now);
    assert EncodeDag(d) + [] == EncodeDag(d);
    DagCut(EncodeDag(d), k, now);
  }

  // ---------------------------------------------------------------------------
  // What is accepted is an encoding
  // ---------------------------------------------------------------------------

  lemma WordBack(b: seq<Byte>, at: nat)
    requires at <= |b| && ReadWord(b, at).Some?
    ensures Holds(b, at, Word(ReadWord(b, at).value.0)) && ReadWord(b, at).value.1 == at + 4
  {
    hide BigEndian, Value;
    BigEndianOfValue(b[at..at + 4]);
  }

  lemma LongBack(b: seq<Byte>, at: nat)
    requires at <= |b| && ReadLong(b, at).Some?
    ensures Holds(b, at, BigEndian(ReadLong(b, at).value.0, 8)) && ReadLong(b, at).value.1 == at + 8
  {
    hide BigEndian, Value;
    BigEndianOfValue(b[at..at + 8]);
  }

  lemma NameBack(b: seq<Byte>, at: nat, limit: nat)
    requires at <= |b| && limit <= 0x1_0000_0000
    requires ReadName(b, at, limit).Some? && NulFree(ReadName(b, at, limit).value.0)
    ensures var r := ReadName(b, at, limit).value;
            Holds(b, at, EncodeName(r.0)) && r.1 == at + |EncodeName(r.0)|
  {
    var r := ReadName(b, at, limit).value;
    WordBack(b, at);
    CStringWhole(r.0);
    HoldsConcat(b, at, Word(|r.0|), r.0);
  }

  lemma {:induction false} DependenciesBack(b: seq<Byte>, at: nat, n: nat)
    requires at <= |b| && ReadDependencies(b, at, n).Some?
    ensures var r := ReadDependencies(b, at, n).value;
            |r.0| == n && Holds(b, at, EncodeDependencies(r.0)) && r.1 == at + 4 * n
    decreases n
  {
    if n > 0 {
      WordBack(b, at);
      DependenciesBack(b, at + 4, n - 1);
      var ds := ReadDependencies(b, at, n).value.0;
      assert ds[1..] == ReadDependencies(b, at + 4, n - 1).value.0;
      HoldsConcat(b, at, Word(ds[0]), EncodeDependencies(ds[1..]));
    }
  }

  lemma TitleBack(b: seq<Byte>, at: nat, s: Step, z: nat)
    requires at <= |b| && ReadTitle(b, at) == Some(((s.id, s.name, s.functionName), z))
    requires NulFree(s.name) && NulFree(s.functionName)
    ensures Holds(b, at, EncodeTitle(s)) && z == at + |EncodeTitle(s)|
  {
    WordBack(b, at);
    NameBack(b, at + 4, MAX_STEP_NAME);
    var q := at + 4 + |EncodeName(s.name)|;
    NameBack(b, q, MAX_STEP_NAME);
    HoldsConcat(b, at, Word(s.id), EncodeName(s.name) + EncodeName(s.functionName));
    HoldsConcat(b, at + 4, EncodeName(s.name), EncodeName(s.functionName));
  }

  lemma LinksBack(b: seq<Byte>, at: nat, ds: seq<Word32>, z: nat)
    requires at <= |b| && ReadLinks(b, at) == Some((ds, z))
    ensures Holds(b, at, EncodeLinks(ds)) && z == at + |EncodeLinks(ds)| && |ds| <= MAX_STEP_DEPENDENCIES
  {
    WordBack(b, at);
    DependenciesBack(b, at + 4, ReadWord(b, at).value.0);
    HoldsConcat(b, at, Word(|ds|), EncodeDependencies(ds));
  }

  lemma SettingsBack(b: seq<Byte>, at: nat, s: Step, z: nat)
    requires at <= |b| && ReadSettings(b, at) == Some(((s.timeout, s.maxRetries, EncodeConfig(s)), z))
    requires s.configLen == |EncodeConfig(s)|
    ensures Holds(b, at, EncodeSettings(s)) && z == at + |EncodeSettings(s)|
  {
    WordBack(b, at);
    WordBack(b, at + 5);
    assert Holds(b, at + 4, [s.maxRetries]);
    assert Holds(b, at + 9, EncodeConfig(s));
    HoldsConcat(b, at + 5, Word(s.configLen), EncodeConfig(s));
    HoldsConcat(b, at + 4, [s.maxRetries], Word(s.configLen) + EncodeConfig(s));
    HoldsConcat(b, at, Word(s.timeout), [s.maxRetries] + (Word(s.configLen) + EncodeConfig(s)));
  }

  lemma StepParts(b: seq<Byte>, at: nat) returns (p: nat, q: nat)
    requires at <= |b| && ReadStep(b, at).Some?
    ensures var (s, z) := ReadStep(b, at).value;
            && at <= p <= q <= |b|
            && ReadTitle(b, at) == Some(((s.id, s.name, s.functionName), p))
            && ReadLinks(b, p) == Some((s.dependencies, q))
            && ReadSettings(b, q) == Some(((s.timeout, s.maxRetries, EncodeConfig(s)), z))
            && s.configLen == |EncodeConfig(s)|
  {
    p := ReadTitle(b, at).value.1;
    q := ReadLinks(b, p).value.1;
  }

  lemma StepBack(b: seq<Byte>, at: nat)
    requires at <= |b| && ReadStep(b, at).Some?
    requires NulFree(ReadStep(b, at).value.0.name) && NulFree(ReadStep(b, at).value.0.functionName)
    ensures var r := ReadStep(b, at).value;
            Holds(b, at, EncodeStep(r.0)) && r.1 == at + |EncodeStep(r.0)|
  {
    hide EncodeTitle, EncodeLinks, EncodeSettings, ReadTitle, ReadLinks, ReadSettings, ReadStep, Holds;
    var (s, z) := ReadStep(b, at).value;
    var p, q := StepParts(b, at);
    TitleBack(b, at, s, p);
    LinksBack(b, p, s.dependencies, q);
    SettingsBack(b, q, s, z);
    HoldsConcat(b, p, EncodeLinks(s.dependencies), EncodeSettings(s));
    HoldsConcat(b, at, EncodeTitle(s), EncodeLinks(s.dependencies) + EncodeSettings(s));
  }

  ghost predicate PlainNames(ss: seq<Step>) {
    forall i | 0 <= i < |ss| :: NulFree(ss[i].name) && NulFree(ss[i].functionName)
  }

  lemma {:induction false} StepsBack(b: seq<Byte>, at: nat, n: nat)
    requires at <= |b| && ReadSteps(b, at, n).Some? && PlainNames(ReadSteps(b, at, n).value.0)
    ensures var r := ReadSteps(b, at, n).value;
            |r.0| == n && Holds(b, at, EncodeSteps(r.0)) && r.1 == at + |EncodeSteps(r.0)|
    decreases n
  {
    hide ReadStep, EncodeStep, Holds;
    if n > 0 {
      var ss := ReadSteps(b, at, n).value.0;
      var p := ReadStep(b, at).value.1;
      assert ss[1..] == ReadSteps(b, p, n - 1).value.0;
      assert ss[0] == ReadStep(b, at).value.0;
      StepBack(b, at);
      StepsBack(b, p, n - 1);
      HoldsConcat(b, at, EncodeStep(ss[0]), EncodeSteps(ss[1..]));
    } else {
      HoldsNothing(b, at);
    }
  }

  lemma HoldsNothing(b: seq<Byte>, at: nat)
    requires at <= |b|
    ensures Holds(b, at, [])
  {
  }

  lemma HeaderBack(b: seq<Byte>, d: Dag, p: nat)
    requires ReadHeader(b, 0) == Some(((d.id, d.version, d.name), p)) && NulFree(d.name)
    ensures Holds(b, 0, EncodeHeader(d)) && p == |EncodeHeader(d)|
  {
    WordBack(b, 0);
    LongBack(b, 4);
    NameBack(b, 12, MAX_DAG_NAME);
    HoldsConcat(b, 4, BigEndian(d.version, 8), EncodeName(d.name));
    HoldsConcat(b, 0, Word(d.id), BigEndian(d.version, 8) + EncodeName(d.name));
  }

  lemma DagParts(b: seq<Byte>, now: nat) returns (p: nat)
    requires ReadDag(b, now).Some?
    ensures var (d, z) := ReadDag(b, now).value;
            && p + 4 <= z <= |b| && |d.steps| <= MAX_DAG_STEPS
            && ReadHeader(b, 0) == Some(((d.id, d.version, d.name), p))
            && ReadWord(b, p) == Some((|d.steps|, p + 4))
            && ReadSteps(b, p + 4, |d.steps|) == Some((d.steps, z))
  {
    hide ReadHeader, ReadSteps, ReadWord;
    p := ReadHeader(b, 0).value.1;
    WordBack(b, p);
    StepsCounted(b, p + 4, ReadWord(b, p).value.0);
  }

  lemma {:induction false} StepsCounted(b: seq<Byte>, at: nat, n: nat)
    requires at <= |b| && ReadSteps(b, at, n).Some?
    ensures |ReadSteps(b, at, n).value.0| == n
    decreases n
  {
    hide ReadStep;
    if n > 0 {
      StepsCounted(b, ReadStep(b, at).value.1, n - 1);
    }
  }

  /** Every accepted buffer whose names hold no NUL starts with exactly the bytes that
      serializing the decoded DAG writes: there is one encoding per DAG. */
  lemma Canonical(b: seq<Byte>, now: nat)
    requires ReadDag(b, now).Some?
    requires NulFree(ReadDag(b, now).value.0.name) && PlainNames(ReadDag(b, now).value.0.steps)
    ensures b[..ReadDag(b, now).value.1] == EncodeDag(ReadDag(b, now).value.0)
  {
    hide EncodeHeader, EncodeSteps, ReadHeader, ReadSteps, ReadDag;
    var (d, z) := ReadDag(b, now).value;
    var p := DagParts(b, now);
    HeaderBack(b, d, p);
    WordBack(b, p);
    StepsBack(b, p + 4, |d.steps|);
    HoldsConcat(b, p, Word(|d.steps|), EncodeSteps(d.steps));
    HoldsConcat(b, 0, EncodeHeader(d), Word(|d.steps|) + EncodeSteps(d.steps));
  }

  // ---------------------------------------------------------------------------
  // Size accounting
  // ---------------------------------------------------------------------------

  /** The configuration bytes the size counts but the writer leaves out. */
  function Missing(s: Step): nat
    requires s.config.Some? ==> |s.config.value| == s.configLen
  {
    if s.config.None? then s.configLen else 0
  }

  ghost predicate SizedConfigs(ss: seq<Step>) {
    forall i | 0 <= i < |ss| :: ss[i].config.Some? ==> |ss[i].config.value| == ss[i].configLen
  }

  lemma StepSized(s: Step)
    requires s.config.Some? ==> |s.config.value| == s.configLen
    ensures |EncodeStep(s)| == StepSize(s) - Missing(s)
    ensures Missing(s) == 0 <==> s.configLen == 0 || s.config.Some?
  {
  }

  lemma {:induction false} StepsSized(ss: seq<Step>)
    requires SizedConfigs(ss)
    ensures |EncodeSteps(ss)| <= StepsSize(ss)
    ensures |EncodeSteps(ss)| == StepsSize(ss) <==> (forall i | 0 <= i < |ss| :: ss[i].configLen > 0 ==>
              ss[i].config.Some?)
  {
    hide EncodeStep, StepSize, Missing;
    if |ss| > 0 {
      StepsSized(ss[1..]);
      assert forall i | 0 < i < |ss| :: ss[i] == ss[1..][i - 1];
      StepSized(ss[0]);
    }
  }

  /** The bytes written never exceed the size computed beforehand, and equal it exactly when every
      step with a configuration length has a configuration. */
  lemma WrittenIsRequired(d: Dag)
    requires SizedConfigs(d.steps)
    ensures |EncodeDag(d)| <= RequiredSize(d)
    ensures |EncodeDag(d)| == RequiredSize(d) <==> (forall i | 0 <= i < |d.steps| :: d.steps[i].configLen > 0 ==>
              d.steps[i].config.Some?)
  {
    StepsSized(d.steps);
  }
}
