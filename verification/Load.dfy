/** Loading a credential: which files are accepted, what the credential then is, and how
    memory is used on every path. */
module Load {
  import opened Bytes
  import opened Memory
  import opened Ats

  const BINARY_FIRST_OCTET: byte := 0x60
  const FILE_MAX := 16 * 1024
  const TEXT_RESERVE := 2 * 1024

  /** DFC_APP_EXTENSION and DFC_FILE_NAME_MAX_LENGTH. */
  const APP_EXTENSION: string
  const NAME_MAX: nat

  datatype LoadStatus = Ok | OpenFailed | UnsupportedFormat | MalformedFile | CodecUnavailable | Capacity

  /** The statuses of the text and the binary codec, which the load treats as one type. */
  datatype CodecStatus = CodecOk | CodecUnsupported | CodecCapacity | CodecMalformed | CodecOther

  function StatusFor(s: CodecStatus): LoadStatus {
    match s
    case CodecOk => Ok
    case CodecUnsupported => UnsupportedFormat
    case CodecCapacity => Capacity
    case CodecMalformed => MalformedFile
    case CodecOther => MalformedFile
  }

  datatype Heap = Heap(free: nat, largest: nat, granted: bool)

  /** The subtraction is only made when it does not wrap around. */
  predicate HasHeapFor(h: Heap, allocation: nat, reserve: nat): (ok: bool)
    ensures ok <==> allocation <= h.largest && allocation + reserve <= h.free
  {
    allocation <= h.largest && allocation <= h.free && reserve <= h.free - allocation
  }

  datatype File = File(opens: bool, size: nat, content: seq<byte>)

  datatype Plugin = NoManager | LoadFailed | NotSingle | BadEntry | Ready

  /** Everything outside the load: the file, the heap before either allocation, the plugin
      loader, and the codecs and checks over a credential of type C. */
  datatype World<!C> = World(
    file: File, sourceHeap: Heap, copyHeap: Heap, plugin: Plugin,
    parse: (C, seq<byte>) -> (CodecStatus, C),
    encodedSize: C -> (CodecStatus, nat),
    encode: C -> (CodecStatus, seq<byte>),
    decode: (C, seq<byte>) -> (CodecStatus, C),
    uidDetectable: C -> bool,
    atsConsistent: C -> bool,
    ats: C -> seq<byte>,
    name: C -> string,
    named: (C, string) -> C,
    cleared: C)

  datatype Result<+T> = Fine(value: T) | Refused(status: LoadStatus)

  // ----- What a load means -----

  predicate IsText(path: string): (text: bool)
    ensures text <==> exists stem :: path == stem + APP_EXTENSION
  {
    assert |path| >= |APP_EXTENSION| && path[|path| - |APP_EXTENSION|..] == APP_EXTENSION ==>
             path == path[..|path| - |APP_EXTENSION|] + APP_EXTENSION;
    |path| >= |APP_EXTENSION| && path[|path| - |APP_EXTENSION|..] == APP_EXTENSION
  }

  function Reserve(path: string): nat {
    if IsText(path) then TEXT_RESERVE else 0
  }

  function Fetch<C>(w: World<C>, path: string): (r: Result<seq<byte>>)
    ensures r.Fine? ==> r.value == w.file.content && 0 < |r.value| == w.file.size <= FILE_MAX
    ensures r.Refused? ==> r.status != Ok
  {
    if !w.file.opens then Refused(OpenFailed)
    else if w.file.size == 0 then Refused(MalformedFile)
    else if w.file.size > FILE_MAX || !HasHeapFor(w.sourceHeap, w.file.size, Reserve(path)) then Refused(Capacity)
    else if !w.sourceHeap.granted then Refused(Capacity)
    else if |w.file.content| != w.file.size then Refused(OpenFailed)
    else Fine(w.file.content)
  }

  /** The binary encoding of a credential in a buffer of a given size. */
  function EncodeInto<C>(w: World<C>, c: C, size: nat): (r: (CodecStatus, seq<byte>))
    ensures r.0.CodecOk? ==> |r.1| <= size
  {
    var r := w.encode(c);
    if r.0.CodecOk? && |r.1| > size then (CodecCapacity, []) else r
  }

  /** Text is compiled: the credential it describes, and that credential's encoding. */
  function Compile<C>(w: World<C>, c: C, text: seq<byte>): (r: Result<(C, seq<byte>)>)
    ensures r.Refused? ==> r.status != Ok
  {
    if !w.plugin.Ready? then Refused(CodecUnavailable)
    else
      var parsed := w.parse(c, text);
      if !parsed.0.CodecOk? then Refused(StatusFor(parsed.0))
      else
        var size := w.encodedSize(parsed.1);
        if !size.0.CodecOk? then Refused(StatusFor(size.0))
        else if !HasHeapFor(w.copyHeap, size.1, 0) || !w.copyHeap.granted then Refused(Capacity)
        else
          var encoded := EncodeInto(w, parsed.1, size.1);
          if encoded.0.CodecOk? then Fine((parsed.1, encoded.1)) else Refused(StatusFor(encoded.0))
  }

  /** Octets are decoded, and the decoded credential must be one that can be emulated. */
  function Judge<C>(w: World<C>, c: C, octets: seq<byte>): (r: Result<C>)
    ensures r.Refused? ==> r.status != Ok
  {
    var decoded := w.decode(c, octets);
    if !decoded.0.CodecOk? then Refused(StatusFor(decoded.0))
    else if !w.uidDetectable(decoded.1) then Refused(MalformedFile)
    else if !w.atsConsistent(decoded.1) || !RadioSupported(w.ats(decoded.1)) then Refused(UnsupportedFormat)
    else Fine(decoded.1)
  }

  function Accept<C>(w: World<C>, c: C, source: seq<byte>): (r: Result<C>)
    requires source != []
    ensures r.Refused? ==> r.status != Ok
  {
    if source[0] == BINARY_FIRST_OCTET then Judge(w, c, source)
    else match Compile(w, c, source)
      case Refused(status) => Refused(status)
      case Fine(compiled) => Judge(w, compiled.0, compiled.1)
  }

  function Outcome<C>(w: World<C>, path: string, c: C): (r: Result<C>)
    ensures r.Refused? ==> r.status != Ok
  {
    match Fetch(w, path)
    case Refused(status) => Refused(status)
    case Fine(source) => Accept(w, c, source)
  }

  /** The size of the encoded copy, if one is made. */
  function CopySize<C>(w: World<C>, c: C, source: seq<byte>): nat
    requires source != []
  {
    if source[0] == BINARY_FIRST_OCTET then 0 else w.encodedSize(w.parse(c, source).1).1
  }

  function Max(a: nat, b: nat): nat {
    if a < b then b else a
  }

  // ----- The load -----

  class Credential<C> {
    var value: C

    constructor (c: C)
      ensures value == c
    {
      value := c;
    }
  }

  class TextCodec {
    var manager: bool
    var api: bool

    constructor ()
      ensures !manager && !api
    {
      manager, api := false, false;
    }

    /** Every failure after the manager was allocated frees it again. */
    method Open(mem: Memory, plugin: Plugin) returns (ok: bool)
      requires mem.Valid() && !mem.held.open && !manager
      modifies this, mem
      ensures ok == plugin.Ready? && manager == ok && (ok ==> api)
      ensures mem.Valid() && old(mem.log) <= mem.log && mem.peak == old(mem.peak)
      ensures mem.held == Holding(old(mem.held.block), ok)
    {
      manager := plugin != NoManager;
      if !manager {
        return false;
      }
      mem.Open();
      if plugin == LoadFailed || plugin == NotSingle {
        mem.Close();
        manager := false;
        return false;
      }
      api := plugin != BadEntry;
      if !api {
        mem.Close();
        manager, api := false, false;
        return false;
      }
      return true;
    }

    /** Closing a codec that is not open changes nothing. */
    method Close(mem: Memory)
      requires mem.Valid() && mem.held.open == manager
      modifies this, mem
      ensures !manager && !api
      ensures mem.Valid() && old(mem.log) <= mem.log && mem.peak == old(mem.peak)
      ensures mem.held == Holding(old(mem.held.block), false)
    {
      api := false;
      if manager {
        mem.Close();
      }
      manager := false;
    }
  }

  /** The whole file in a fresh buffer, which then belongs to the caller. */
  method ReadWholeFile<C>(mem: Memory, w: World<C>, path: string) returns (buffer: array?<byte>, status: LoadStatus)
    requires mem.Valid() && mem.held == IDLE
    modifies mem
    ensures mem.Valid() && old(mem.log) <= mem.log && mem.peak <= Max(old(mem.peak), w.file.size)
    ensures Fetch(w, path).Refused? ==> buffer == null && mem.held == IDLE && status == Fetch(w, path).status
    ensures Fetch(w, path).Fine? ==> buffer != null && fresh(buffer) && mem.held == Holding(Some(buffer), false)
                                     && buffer[..] == Fetch(w, path).value
  {
    buffer, status := null, MalformedFile;
    if !w.file.opens {
      status := OpenFailed;
    } else if w.file.size == 0 {
      status := MalformedFile;
    } else if w.file.size > FILE_MAX {
      status := Capacity;
    } else if !HasHeapFor(w.sourceHeap, w.file.size, Reserve(path)) {
      status := Capacity;
    } else {
      buffer := mem.Malloc(w.file.size, w.sourceHeap.granted);
      if buffer == null {
        status := Capacity;
      } else if |w.file.content| != w.file.size {
        mem.Free(buffer);
        buffer, status := null, OpenFailed;
      } else {
        mem.Write(buffer, w.file.content);
      }
    }
  }

  /** The gates a decoded credential passes. */
  method DecodeAndCheck<C>(w: World<C>, credential: Credential<C>, octets: seq<byte>)
    returns (parsed: bool, status: LoadStatus)
    modifies credential
    ensures var r := Judge(w, old(credential.value), octets);
            parsed == r.Fine? && status == (if r.Fine? then Ok else r.status)
            && (r.Fine? ==> credential.value == r.value)
  {
    var (code, decoded) := w.decode(credential.value, octets);
    credential.value := decoded;
    if !code.CodecOk? {
      return false, StatusFor(code);
    }
    if !w.uidDetectable(decoded) {
      return false, MalformedFile;
    }
    if !w.atsConsistent(decoded) {
      return false, UnsupportedFormat;
    }
    var supported := IsRadioSupported(w.ats(decoded));
    if !supported {
      return false, UnsupportedFormat;
    }
    return true, Ok;
  }

  /** The buffer that is held, under whichever names it has. */
  ghost predicate Owned(held: Option<array<byte>>, raw: array?<byte>, octets: array?<byte>) {
    if raw != null then held == Some(raw) && (octets == null || octets == raw)
    else held == if octets == null then None else Some(octets)
  }

  /** The text branch. The source is freed once it is parsed and sized, before the copy is
      allocated; whatever buffer is left is handed back. */
  method CompileText<C>(mem: Memory, w: World<C>, credential: Credential<C>, codec: TextCodec, source: array<byte>)
    returns (raw: array?<byte>, octets: array?<byte>, length: nat, status: LoadStatus)
    requires mem.Valid() && mem.held == Holding(Some(source), false) && !codec.manager
    modifies mem, credential, codec
    ensures mem.Valid() && old(mem.log) <= mem.log && mem.held.open == codec.manager
    ensures mem.peak <= Max(old(mem.peak), w.encodedSize(w.parse(old(credential.value), old(source[..])).1).1)
    ensures Owned(mem.held.block, raw, octets)
    ensures var r := Compile(w, old(credential.value), old(source[..]));
            && (status == Ok) == r.Fine?
            && (r.Refused? ==> status == r.status)
            && (r.Fine? ==> credential.value == r.value.0 && raw == null && !codec.manager && octets != null
                            && fresh(octets) && length <= octets.Length && octets[..length] == r.value.1)
  {
    raw, octets, length, status := source, null, 0, MalformedFile;
    var isOpen := codec.Open(mem, w.plugin);
    if !isOpen {
      return raw, octets, length, CodecUnavailable;
    }
    var (code, model) := w.parse(credential.value, mem.Read(source, source.Length));
    assert source[..source.Length] == source[..];
    credential.value := model;
    if !code.CodecOk? {
      return raw, octets, length, StatusFor(code);
    }
    codec.Close(mem);
    var (sizeCode, needed) := w.encodedSize(model);
    if !sizeCode.CodecOk? {
      return raw, octets, length, StatusFor(sizeCode);
    }
    mem.Free(source);
    raw := null;
    if !HasHeapFor(w.copyHeap, needed, 0) {
      return raw, octets, length, Capacity;
    }
    octets := mem.Malloc(needed, w.copyHeap.granted);
    if octets == null {
      return raw, octets, length, Capacity;
    }
    var (encoded, bytes) := EncodeInto(w, model, needed);
    if !encoded.CodecOk? {
      return raw, octets, length, StatusFor(encoded);
    }
    mem.Write(octets, bytes);
    return raw, octets, |bytes|, Ok;
  }

  method Release(mem: Memory, codec: TextCodec, raw: array?<byte>, octets: array?<byte>)
    requires mem.Valid() && mem.held.open == codec.manager && Owned(mem.held.block, raw, octets)
    modifies mem, codec
    ensures mem.Valid() && mem.held == IDLE && old(mem.log) <= mem.log && mem.peak == old(mem.peak)
  {
    if octets != null && octets != raw {
      mem.Free(octets);
    }
    if raw != null {
      mem.Free(raw);
    }
    codec.Close(mem);
  }

  /** A source in memory becomes a credential, or nothing; the buffers are released. */
  method LoadSource<C>(mem: Memory, w: World<C>, credential: Credential<C>, source: array<byte>, selectedName: string)
    returns (parsed: bool, status: LoadStatus)
    requires mem.Valid() && mem.held == Holding(Some(source), false) && source.Length > 0
    modifies mem, credential
    ensures mem.Valid() && mem.held == IDLE && old(mem.log) <= mem.log
    ensures mem.peak <= Max(old(mem.peak), CopySize(w, old(credential.value), old(source[..])))
    ensures var r := Accept(w, old(credential.value), old(source[..]));
            && parsed == r.Fine? && status == (if r.Fine? then Ok else r.status)
            && credential.value == if r.Fine? then w.named(r.value, selectedName) else w.cleared
  {
    hide Compile, Judge;
    var codec := new TextCodec();
    var raw: array?<byte>, octets: array?<byte>, length := source, source, source.Length;
    parsed, status := false, Ok;
    assert source[..source.Length] == source[..];
    if mem.Read(source, source.Length)[0] != BINARY_FIRST_OCTET {
      raw, octets, length, status := CompileText(mem, w, credential, codec, source);
    }
    if status == Ok {
      parsed, status := DecodeAndCheck(w, credential, mem.Read(octets, length));
    }
    credential.value := if parsed then w.named(credential.value, selectedName) else w.cleared;
    Release(mem, codec, raw, octets);
  }

  /** On every path memory ends as it began, disciplined throughout, and never holds more
      than the larger of source and copy. The credential is what the file says, or cleared,
      or, when the file could not be read, as it was. */
  method FileLoad<C>(mem: Memory, w: World<C>, credential: Credential<C>, path: string, selectedName: string)
    returns (parsed: bool, status: LoadStatus)
    requires mem.Valid() && mem.held == IDLE
    modifies mem, credential
    ensures mem.Valid() && mem.held == IDLE && old(mem.log) <= mem.log
    ensures Fetch(w, path).Refused? ==> mem.peak <= Max(old(mem.peak), w.file.size)
    ensures Fetch(w, path).Fine? ==>
              mem.peak <= Max(old(mem.peak), Max(w.file.size, CopySize(w, old(credential.value), Fetch(w, path).value)))
              && CopySize(w, old(credential.value), Fetch(w, path).value)
                 == if w.file.content[0] == 0x60 then 0
                    else w.encodedSize(w.parse(old(credential.value), w.file.content).1).1
    ensures parsed <==> status == Ok
    ensures var r := Outcome(w, path, old(credential.value));
            && (r.Fine? ==> parsed && credential.value == w.named(r.value, selectedName))
            && (r.Refused? ==> status == r.status)
            && (r.Refused? ==> credential.value == if Fetch(w, path).Refused? then old(credential.value) else w.cleared)
  {
    hide Fetch, Accept;
    parsed := false;
    var raw: array?<byte>;
    raw, status := ReadWholeFile(mem, w, path);
    if raw != null {
      parsed, status := LoadSource(mem, w, credential, raw, selectedName);
    }
  }

  /** The entry point: a refused load clears the credential, unless no path was chosen. */
  method LoadSelectedFile<C>(mem: Memory, w: World<C>, credential: Credential<C>, path: string, fileName: string)
    returns (loaded: bool, status: LoadStatus)
    requires mem.Valid() && mem.held == IDLE
    modifies mem, credential
    ensures mem.Valid() && mem.held == IDLE && old(mem.log) <= mem.log
    ensures loaded <==> status == Ok
    ensures loaded <==> path != "" && Outcome(w, path, old(credential.value)).Fine?
    ensures loaded ==> credential.value == w.named(Outcome(w, path, old(credential.value)).value,
                                                   SelectedName(w.name(old(credential.value)), fileName))
    ensures !loaded ==> status == if path == "" then OpenFailed else Outcome(w, path, old(credential.value)).status
    ensures !loaded ==> credential.value == if path == "" then old(credential.value) else w.cleared
  {
    if path == "" {
      return false, OpenFailed;
    }
    var selectedName := Truncate(w.name(credential.value));
    if selectedName == "" {
      selectedName := Truncate(fileName);
    }
    loaded, status := FileLoad(mem, w, credential, path, selectedName);
    if !loaded {
      credential.value := w.cleared;
    }
  }

  function Truncate(s: string): (r: string)
    ensures r <= s && |r| <= NAME_MAX && (|r| < |s| ==> |r| == NAME_MAX)
  {
    if |s| > NAME_MAX then s[..NAME_MAX] else s
  }

  function SelectedName(current: string, fileName: string): (r: string)
    ensures |r| <= NAME_MAX
    ensures if current == "" || NAME_MAX == 0 then r <= fileName else r != "" && r <= current
  {
    if Truncate(current) == "" then Truncate(fileName) else Truncate(current)
  }

  // ----- What being loaded guarantees -----

  /** A loaded credential passed every gate, and its answer to select reaches the listener
      octet for octet, whatever the file was. */
  lemma LoadedAtsIsEmulated<C>(w: World<C>, path: string, c: C)
    requires Outcome(w, path, c).Fine?
    ensures var loaded := Outcome(w, path, c).value;
            && w.uidDetectable(loaded) && w.atsConsistent(loaded)
            && (w.ats(loaded) != [] ==> Print(Unpacked(w.ats(loaded))) == w.ats(loaded) && Usable(Unpacked(w.ats(loaded))))
  {
    var ats := w.ats(Outcome(w, path, c).value);
    if ats != [] { GateMeansRoundTrip(ats); }
  }

  /** A file is accepted exactly when it can be read and its octets, or the octets its text
      compiles to, decode to a credential that passes the gates. */
  lemma Accepted<C>(w: World<C>, path: string, c: C)
    ensures Outcome(w, path, c).Fine? <==>
              && w.file.opens && 0 < |w.file.content| == w.file.size <= 16384
              && w.sourceHeap.granted && w.file.size <= w.sourceHeap.largest
              && w.file.size + (if EndsInExtension(path) then 2048 else 0) <= w.sourceHeap.free
              && exists before, octets :: Source(w, c, w.file.content, before, octets) && Emulates(w, w.decode(before, octets))
  {
    if Fetch(w, path).Fine? {
      var source := w.file.content;
      if source[0] == BINARY_FIRST_OCTET {
        assert Source(w, c, source, c, source);
      } else if Compile(w, c, source).Fine? {
        var compiled := Compile(w, c, source).value;
        assert Source(w, c, source, compiled.0, compiled.1);
      }
    }
  }

  ghost predicate EndsInExtension(path: string) {
    exists stem :: path == stem + APP_EXTENSION
  }

  /** Which status a refused file gets, stage by stage. */
  lemma RefusedBecause<C>(w: World<C>, path: string, c: C)
    requires Outcome(w, path, c).Refused?
    ensures var status, f, h := Outcome(w, path, c).status, w.file, w.sourceHeap;
            var reserve := if EndsInExtension(path) then 2048 else 0;
            if !f.opens then status == OpenFailed
            else if f.size == 0 then status == MalformedFile
            else if f.size > 16384 || f.size > h.largest || f.size + reserve > h.free || !h.granted then status == Capacity
            else if |f.content| != f.size then status == OpenFailed
            else if f.content[0] == 0x60 then NotEmulated(w, w.decode(c, f.content), status)
            else
              var parsed, copy := w.parse(c, f.content), w.copyHeap;
              var size, encoded := w.encodedSize(parsed.1), w.encode(parsed.1);
              if w.plugin != Ready then status == CodecUnavailable
              else if parsed.0 != CodecOk then Rejected(parsed.0, status)
              else if size.0 != CodecOk then Rejected(size.0, status)
              else if size.1 > copy.largest || size.1 > copy.free || !copy.granted then status == Capacity
              else if encoded.0 != CodecOk then Rejected(encoded.0, status)
              else if |encoded.1| > size.1 then status == Capacity
              else NotEmulated(w, w.decode(parsed.1, encoded.1), status)
  {
  }

  /** A codec's refusal: unsupported and too large are passed on, anything else is malformed. */
  predicate Rejected(code: CodecStatus, status: LoadStatus) {
    && (status == UnsupportedFormat <==> code == CodecUnsupported)
    && (status == Capacity <==> code == CodecCapacity)
    && (status == MalformedFile <==> code == CodecMalformed || code == CodecOther)
    && status !in {OpenFailed, CodecUnavailable}
  }

  ghost predicate NotEmulated<C>(w: World<C>, decoded: (CodecStatus, C), status: LoadStatus) {
    if decoded.0 != CodecOk then Rejected(decoded.0, status)
    else if !w.uidDetectable(decoded.1) then status == MalformedFile
    else status == UnsupportedFormat && !(w.atsConsistent(decoded.1) && RadioSupported(w.ats(decoded.1)))
  }

  /** The octets that are decoded, and the credential they are decoded over. */
  ghost predicate Source<C>(w: World<C>, c: C, source: seq<byte>, before: C, octets: seq<byte>)
    requires source != []
  {
    if source[0] == 0x60 then before == c && octets == source
    else
      var size := w.encodedSize(before);
      && w.plugin.Ready? && w.parse(c, source) == (CodecOk, before) && size.0 == CodecOk
      && size.1 <= w.copyHeap.largest && size.1 <= w.copyHeap.free && w.copyHeap.granted
      && w.encode(before) == (CodecOk, octets) && |octets| <= size.1
  }

  ghost predicate Emulates<C>(w: World<C>, decoded: (CodecStatus, C)) {
    && decoded.0 == CodecOk && w.uidDetectable(decoded.1) && w.atsConsistent(decoded.1)
    && RadioSupported(w.ats(decoded.1))
  }
}
