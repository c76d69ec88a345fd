/** Resolving `$node.output.field`: which value a field reference stands for, and when it is an
    error. JSON parsing and printing are parameters. */
module OutputRef {
  import opened Schema

  /** What the libraries do: read a JSON object out of output text, print a JSON value, and tell the
      characters that a pattern takes for decimal digits. */
  datatype Library = Library(readObject: string -> Option<map<string, Json>>, stringify: Json -> string,
                             isDecimal: char -> bool)

  datatype RefError = NotInSchema | Unparseable | MissingKey | ProducerNotRun

  datatype FieldResolution = FieldValue(value: Json) | Empty

  function AsObject(j: Option<Json>): Option<map<string, Json>> {
    if j.Some? && j.value.JObject? then Some(j.value.fields) else None
  }

  function ReadOutput(text: string, lib: Library): Option<map<string, Json>> {
    if |text| == 0 then None else lib.readObject(text)
  }

  function ResolveField(o: NodeOutput, field: string, lib: Library): Result<FieldResolution, RefError> {
    if o.Skipped? || o.Pending? then Err(ProducerNotRun)
    else
      var structured := AsObject(o.structured);
      if o.declared.Some? then
        if field !in o.declared.value then Err(NotInSchema)
        else
          var obj := if structured.Some? then structured else ReadOutput(o.output, lib);
          if obj.None? || field !in obj.value || obj.value[field].JNull? then Ok(Empty)
          else Ok(FieldValue(obj.value[field]))
      else if structured.Some? then
        if field !in structured.value then Ok(Empty) else Ok(FieldValue(structured.value[field]))
      else
        var obj := ReadOutput(o.output, lib);
        if obj.None? then Err(Unparseable)
        else if field !in obj.value then Err(MissingKey)
        else Ok(FieldValue(obj.value[field]))
  }

  /** The fields that an output holds: those of its payload if that is an object, and otherwise those of the
      object that its text spells, if it spells one. */
  ghost predicate Holds(o: NodeOutput, lib: Library, fields: map<string, Json>) {
    if o.Skipped? || o.Pending? then false
    else if o.structured.Some? && o.structured.value.JObject? then fields == o.structured.value.fields
    else o.output != "" && lib.readObject(o.output) == Some(fields)
  }

  /** The reference finds this value: the output holds it under a name that the schema, if there is one,
      declares. A declared field that is null is not found. */
  ghost predicate Finds(o: NodeOutput, field: string, lib: Library, value: Json) {
    exists fields :: Holds(o, lib, fields) && field in fields && fields[field] == value &&
      (o.declared.Some? ==> field in o.declared.value && value != JNull)
  }

  /** The reference finds nothing and stands for nothing: a declared field may be absent or null, and so
      may any field of a payload be absent. */
  ghost predicate FindsNothing(o: NodeOutput, field: string, lib: Library) {
    && !o.Skipped? && !o.Pending?
    && (if o.declared.Some? then
          && field in o.declared.value
          && forall fields :: Holds(o, lib, fields) ==> field !in fields || fields[field] == JNull
        else o.structured.Some? && o.structured.value.JObject? && field !in o.structured.value.fields)
  }

  /** The reference is an error. */
  ghost predicate Fails(o: NodeOutput, field: string, lib: Library, e: RefError) {
    if o.Skipped? || o.Pending? then e == ProducerNotRun
    else if o.declared.Some? then e == NotInSchema && field !in o.declared.value
    else
      && !(o.structured.Some? && o.structured.value.JObject?)
      && (forall fields :: Holds(o, lib, fields) ==> field !in fields)
      && e == if o.output == "" || lib.readObject(o.output) == None then Unparseable else MissingKey
  }

  /** A field reference finds one value, or nothing, or is one error, by what its producer left behind. */
  lemma FieldIsRead(o: NodeOutput, field: string, lib: Library)
    ensures forall v :: Finds(o, field, lib, v) <==> ResolveField(o, field, lib) == Ok(FieldValue(v))
    ensures FindsNothing(o, field, lib) <==> ResolveField(o, field, lib) == Ok(Empty)
    ensures forall e :: Fails(o, field, lib, e) <==> ResolveField(o, field, lib) == Err(e)
  {
    if !o.Skipped? && !o.Pending? {
      var structured := AsObject(o.structured);
      var obj := if structured.Some? then structured else ReadOutput(o.output, lib);
      assert forall fields :: Holds(o, lib, fields) <==> obj == Some(fields);
    }
  }

  /** The property names of an `output_format` schema, when it declares an object. */
  function DeclaredFields(schema: Option<Json>): Option<set<string>> {
    if schema.Some? && schema.value.JObject? && "properties" in schema.value.fields
       && schema.value.fields["properties"].JObject?
    then Some(schema.value.fields["properties"].fields.Keys)
    else None
  }

  /** Two outputs that no reference can tell apart: session and error text are not read. */
  predicate Alike(a: NodeOutput, b: NodeOutput) {
    && a.output == b.output
    && ((a.Skipped? || a.Pending?) == (b.Skipped? || b.Pending?))
    && (!(a.Skipped? || a.Pending?) ==> a.structured == b.structured && a.declared == b.declared)
  }

  lemma AlikeResolveAlike(a: NodeOutput, b: NodeOutput, field: string, lib: Library)
    requires Alike(a, b)
    ensures ResolveField(a, field, lib) == ResolveField(b, field, lib)
  {
  }

  /** A reference to a present key of an object output never fails, whichever way the producer
      declared itself, unless its schema leaves the key out. */
  lemma DeclaredNeverFailsOtherwise(o: NodeOutput, field: string, lib: Library)
    ensures ResolveField(o, field, lib).Err? <==>
              || o.Skipped? || o.Pending?
              || (o.declared.Some? && field !in o.declared.value)
              || (o.declared.None? && AsObject(o.structured).None? &&
                  (ReadOutput(o.output, lib).None? || field !in ReadOutput(o.output, lib).value))
  {
  }
}
