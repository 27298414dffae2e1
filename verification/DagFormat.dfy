// The serialized form of a DAG: nested, length-prefixed, big-endian; how it is written
// and how a reader walks through it.

module DagFormat {
  import opened Bytes
  import opened Common
  import opened Dags

  // ---------------------------------------------------------------------------
  // The format
  // ---------------------------------------------------------------------------

  function Word(v: nat): (bs: seq<Byte>)
    ensures |bs| == 4
  {
    BigEndian(v % 0x1_0000_0000, 4)
  }

  /** A length-prefixed C string: strlen decides how much of the array is written. */
  function EncodeName(name: seq<Byte>): seq<Byte> {
    Word(|CString(name)|) + CString(name)
  }

  function EncodeDependencies(ds: seq<Word32>): (bs: seq<Byte>)
    ensures |bs| == 4 * |ds|
  {
    if |ds| == 0 then [] else Word(ds[0]) + EncodeDependencies(ds[1..])
  }

  /** The configuration bytes that follow their length; none when the pointer is NULL. */
  function EncodeConfig(s: Step): seq<Byte> {
    if s.configLen > 0 && s.config.Some? then s.config.value else []
  }

  function EncodeTitle(s: Step): seq<Byte> {
    Word(s.id) + (EncodeName(s.name) + EncodeName(s.functionName))
  }

  function EncodeLinks(ds: seq<Word32>): seq<Byte> {
    Word(|ds|) + EncodeDependencies(ds)
  }

  function EncodeSettings(s: Step): seq<Byte> {
    Word(s.timeout) + ([s.maxRetries] + (Word(s.configLen) + EncodeConfig(s)))
  }

  function EncodeStep(s: Step): seq<Byte> {
    EncodeTitle(s) + (EncodeLinks(s.dependencies) + EncodeSettings(s))
  }

  function EncodeSteps(ss: seq<Step>): seq<Byte> {
    if |ss| == 0 then [] else EncodeStep(ss[0]) + EncodeSteps(ss[1..])
  }

  function EncodeHeader(d: Dag): seq<Byte> {
    Word(d.id) + (BigEndian(d.version, 8) + EncodeName(d.name))
  }

  function EncodeDag(d: Dag): seq<Byte> {
    EncodeHeader(d) + (Word(|d.steps|) + EncodeSteps(d.steps))
  }

  function StepSize(s: Step): nat {
    4 + 4 + |CString(s.name)| + 4 + |CString(s.functionName)| + 4 + |s.dependencies| * 4 + 4 + 1 + 4 + s.configLen
  }

  function StepsSize(ss: seq<Step>): nat {
    if |ss| == 0 then 0 else StepSize(ss[0]) + StepsSize(ss[1..])
  }

  /** What dag_serialize computes before it writes. */
  function RequiredSize(d: Dag): nat {
    4 + 8 + 4 + |CString(d.name)| + 4 + StepsSize(d.steps)
  }

  // ---------------------------------------------------------------------------
  // Reading, from an offset to the next offset
  // ---------------------------------------------------------------------------

  function ReadWord(b: seq<Byte>, at: nat): (r: Option<(Word32, nat)>)
    requires at <= |b|
    ensures r.Some? ==> at <= r.value.1 <= |b|
  {
    if at + 4 > |b| then None
    else Some((Read32(b, at), at + 4))
  }

  function ReadLong(b: seq<Byte>, at: nat): (r: Option<(Word64, nat)>)
    requires at <= |b|
    ensures r.Some? ==> at <= r.value.1 <= |b|
  {
    if at + 8 > |b| then None
    else Some((Read64(b, at), at + 8))
  }

  function ReadBytes(b: seq<Byte>, at: nat, n: nat): (r: Option<(seq<Byte>, nat)>)
    requires at <= |b|
    ensures r.Some? ==> at <= r.value.1 <= |b|
  {
    if at + n > |b| then None else Some((b[at..at + n], at + n))
  }

  function ReadName(b: seq<Byte>, at: nat, limit: nat): (r: Option<(seq<Byte>, nat)>)
    requires at <= |b|
    ensures r.Some? ==> at <= r.value.1 <= |b|
  {
    var (n, p) :- ReadWord(b, at);
    if n >= limit then None else ReadBytes(b, p, n)
  }

  function ReadDependencies(b: seq<Byte>, at: nat, n: nat): (r: Option<(seq<Word32>, nat)>)
    requires at <= |b|
    ensures r.Some? ==> at <= r.value.1 <= |b|
    decreases n
  {
    if n == 0 then Some(([], at))
    else
      var (d, p) :- ReadWord(b, at);
      var (ds, q) :- ReadDependencies(b, p, n - 1);
      Some(([d] + ds, q))
  }

  /** step_id, name and function_name. */
  function ReadTitle(b: seq<Byte>, at: nat): (r: Option<((Word32, seq<Byte>, seq<Byte>), nat)>)
    requires at <= |b|
    ensures r.Some? ==> at <= r.value.1 <= |b|
  {
    var (id, p) :- ReadWord(b, at);
    var (name, q) :- ReadName(b, p, MAX_STEP_NAME);
    var (functionName, z) :- ReadName(b, q, MAX_STEP_NAME);
    Some(((id, name, functionName), z))
  }

  function ReadLinks(b: seq<Byte>, at: nat): (r: Option<(seq<Word32>, nat)>)
    requires at <= |b|
    ensures r.Some? ==> at <= r.value.1 <= |b|
  {
    var (n, p) :- ReadWord(b, at);
    if n > MAX_STEP_DEPENDENCIES then None else ReadDependencies(b, p, n)
  }

  /** timeout_ms, max_retries, config_len and the configuration. */
  function ReadSettings(b: seq<Byte>, at: nat): (r: Option<((Word32, Byte, seq<Byte>), nat)>)
    requires at <= |b|
    ensures r.Some? ==> at <= r.value.1 <= |b|
  {
    var (timeout, p) :- ReadWord(b, at);
    var (retries, q) :- ReadBytes(b, p, 1);
    var (n, w) :- ReadWord(b, q);
    var (config, z) :- ReadBytes(b, w, n);
    Some(((timeout, retries[0], config), z))
  }

  function StepOf(title: (Word32, seq<Byte>, seq<Byte>), links: seq<Word32>,
                  settings: (Word32, Byte, seq<Byte>)): Step
  {
    Step(title.0, title.1, title.2, links, settings.0, settings.1, |settings.2|,
         if |settings.2| > 0 then Some(settings.2) else None)
  }

  function ReadStep(b: seq<Byte>, at: nat): (r: Option<(Step, nat)>)
    requires at <= |b|
    ensures r.Some? ==> at <= r.value.1 <= |b|
  {
    var (title, p) :- ReadTitle(b, at);
    var (links, q) :- ReadLinks(b, p);
    var (settings, z) :- ReadSettings(b, q);
    Some((StepOf(title, links, settings), z))
  }

  function ReadSteps(b: seq<Byte>, at: nat, n: nat): (r: Option<(seq<Step>, nat)>)
    requires at <= |b|
    ensures r.Some? ==> at <= r.value.1 <= |b|
    decreases n
  {
    if n == 0 then Some(([], at))
    else
      var (s, p) :- ReadStep(b, at);
      var (ss, q) :- ReadSteps(b, p, n - 1);
      Some(([s] + ss, q))
  }

  function ReadHeader(b: seq<Byte>, at: nat): (r: Option<((Word32, Word64, seq<Byte>), nat)>)
    requires at <= |b|
    ensures r.Some? ==> at <= r.value.1 <= |b|
  {
    var (id, p) :- ReadWord(b, at);
    var (version, q) :- ReadLong(b, p);
    var (name, z) :- ReadName(b, q, MAX_DAG_NAME);
    Some(((id, version, name), z))
  }

  function ReadStepTable(b: seq<Byte>, at: nat): (r: Option<(seq<Step>, nat)>)
    requires at <= |b|
    ensures r.Some? ==> at <= r.value.1 <= |b|
  {
    var (n, p) :- ReadWord(b, at);
    if n > MAX_DAG_STEPS then None else ReadSteps(b, p, n)
  }

  /** The DAG at the start of the buffer and the offset behind it. Both timestamps are `now`. */
  function ReadDag(b: seq<Byte>, now: nat): (r: Option<(Dag, nat)>)
    ensures r.Some? ==> r.value.1 <= |b|
  {
    var (header, p) :- ReadHeader(b, 0);
    var (steps, z) :- ReadStepTable(b, p);
    Some((Dag(header.0, header.2, header.1, steps, now, now), z))
  }

  // ---------------------------------------------------------------------------
  // Well-formed records
  // ---------------------------------------------------------------------------

  ghost predicate WellFormedStep(s: Step) {
    && NulFree(s.name) && |s.name| < MAX_STEP_NAME
    && NulFree(s.functionName) && |s.functionName| < MAX_STEP_NAME
    && |s.dependencies| <= MAX_STEP_DEPENDENCIES
    && s.configLen < 0x1_0000_0000
    && (s.configLen > 0 ==> s.config.Some? && |s.config.value| == s.configLen)
    && (s.configLen == 0 ==> s.config.None?)
  }

  ghost predicate WellFormed(d: Dag) {
    && NulFree(d.name) && |d.name| < MAX_DAG_NAME
    && |d.steps| <= MAX_DAG_STEPS
    && forall i | 0 <= i < |d.steps| :: WellFormedStep(d.steps[i])
  }

  lemma CStringWhole(s: seq<Byte>)
    requires NulFree(s)
    ensures CString(s) == s
  {
    CStringOfPadded(s, []);
    assert s + [] == s;
  }
}
