/** The annotation node: a typed value cell. The datatype tag says which of the
    value fields holds the value; the property name is also the node's only
    dynamic label. Java's null is `None`. */
module Annotations {
  import opened Outcomes

  /** A point on the UTC time line, in seconds and nanoseconds since the epoch. */
  datatype Instant = Instant(epochSecond: int, nano: nat)
  /** A wall-clock date-time without zone, counted the same way. */
  datatype LocalDateTime = LocalDateTime(localEpochSecond: int, nano: nat)
  /** A Double, kept opaque: the model never computes with it. */
  datatype Double = Double(bits: int)
  /** The class node an annotation of datatype "class" points at (HAS_CLASS_VALUE). */
  datatype ClassRef = ClassRef(id: string)

  /** What getValue returns: the value of one of the five fields, or null. */
  datatype Value =
    | StringValue(s: string)
    | DateValue(d: Instant)
    | NumberValue(n: Double)
    | BooleanValue(b: bool)
    | ClassValue(c: ClassRef)
    | Null

  const UtcOffsetSeconds: int := 0

  /** LocalDateTime.toInstant(ZoneOffset.UTC). */
  function ToInstantAtUtc(t: LocalDateTime): (r: Instant)
    ensures r.epochSecond + UtcOffsetSeconds == t.localEpochSecond && r.nano == t.nano
  {
    Instant(t.localEpochSecond - UtcOffsetSeconds, t.nano)
  }

  /** All fields of an annotation at once. */
  datatype Fields = Fields(
    dynamicLabels: Option<set<string>>, dataType: Option<string>, property: Option<string>,
    stringValue: Option<string>, dateValue: Option<Instant>, numberValue: Option<Double>,
    booleanValue: Option<bool>, classValue: Option<ClassRef>,
    language: Option<string>, index: Option<int>)

  /** The datatype tags getValue knows. */
  predicate KnownTag(t: string) {
    t == "string" || t == "date_time" || t == "number" || t == "boolean" || t == "class"
  }

  /** getValue on the given fields. The switch on a null datatype throws a
      NullPointerException; an unknown tag gives null, and so does a known tag
      whose field is null. */
  function ValueOf(f: Fields): (r: Result<Value>)
    ensures r.Fail? <==> f.dataType.None?
    ensures r.Fail? ==> r.status == InternalServerError
    ensures f.dataType.Some? && !KnownTag(f.dataType.value) ==> r == Ok(Null)
    ensures f.dataType == Some("string") ==>
      r == Ok(if f.stringValue.Some? then StringValue(f.stringValue.value) else Null)
    ensures f.dataType == Some("date_time") ==>
      r == Ok(if f.dateValue.Some? then DateValue(f.dateValue.value) else Null)
    ensures f.dataType == Some("number") ==>
      r == Ok(if f.numberValue.Some? then NumberValue(f.numberValue.value) else Null)
    ensures f.dataType == Some("boolean") ==>
      r == Ok(if f.booleanValue.Some? then BooleanValue(f.booleanValue.value) else Null)
    ensures f.dataType == Some("class") ==>
      r == Ok(if f.classValue.Some? then ClassValue(f.classValue.value) else Null)
    ensures r.Ok? && r.value.StringValue? ==> f.dataType == Some("string") && f.stringValue == Some(r.value.s)
    ensures r.Ok? && r.value.DateValue? ==> f.dataType == Some("date_time") && f.dateValue == Some(r.value.d)
    ensures r.Ok? && r.value.NumberValue? ==> f.dataType == Some("number") && f.numberValue == Some(r.value.n)
    ensures r.Ok? && r.value.BooleanValue? ==> f.dataType == Some("boolean") && f.booleanValue == Some(r.value.b)
    ensures r.Ok? && r.value.ClassValue? ==> f.dataType == Some("class") && f.classValue == Some(r.value.c)
  {
    match f.dataType
    case None => Fail(InternalServerError)
    case Some(t) =>
      if t == "string" then Ok(if f.stringValue.Some? then StringValue(f.stringValue.value) else Null)
      else if t == "date_time" then Ok(if f.dateValue.Some? then DateValue(f.dateValue.value) else Null)
      else if t == "number" then Ok(if f.numberValue.Some? then NumberValue(f.numberValue.value) else Null)
      else if t == "boolean" then Ok(if f.booleanValue.Some? then BooleanValue(f.booleanValue.value) else Null)
      else if t == "class" then Ok(if f.classValue.Some? then ClassValue(f.classValue.value) else Null)
      else Ok(Null)
  }

  /** A non-null value always comes from the field the tag selects, so the tag
      and the value's kind agree. */
  lemma ValueMatchesTag(f: Fields)
    requires ValueOf(f).Ok? && ValueOf(f).value != Null
    ensures f.dataType.Some? && KnownTag(f.dataType.value)
  {
  }

  class Annotation {
    var dynamicLabels: Option<set<string>>
    var dataType: Option<string>
    var property: Option<string>
    var stringValue: Option<string>
    var dateValue: Option<Instant>
    var numberValue: Option<Double>
    var booleanValue: Option<bool>
    var classValue: Option<ClassRef>
    var language: Option<string>
    var index: Option<int>

    function State(): Fields
      reads this
    {
      Fields(dynamicLabels, dataType, property, stringValue, dateValue, numberValue,
             booleanValue, classValue, language, index)
    }

    /** getValue(). */
    function GetValue(): (r: Result<Value>)
      reads this
      ensures r == ValueOf(State())
      ensures r.Fail? <==> dataType.None?
      ensures dataType.Some? && !KnownTag(dataType.value) ==> r == Ok(Null)
    {
      ValueOf(State())
    }

    /** The fields the shared private constructor (property, language, index)
        sets; everything else is null. */
    ghost predicate Base(p: string, lang: Option<string>, idx: Option<int>)
      reads this
    {
      && property == Some(p) && dynamicLabels == Some({p})
      && language == lang && index == idx
    }

    /** Annotation(): every field null. */
    constructor Empty()
      ensures State() == Fields(None, None, None, None, None, None, None, None, None, None)
      ensures GetValue() == Fail(InternalServerError)
    {
      dynamicLabels, dataType, property := None, None, None;
      stringValue, dateValue, numberValue, booleanValue, classValue := None, None, None, None, None;
      language, index := None, None;
    }

    /** Annotation(property, stringValue, language, index). */
    constructor OfString(p: string, v: string, lang: Option<string>, idx: Option<int>)
      ensures Base(p, lang, idx) && dataType == Some("string") && stringValue == Some(v)
      ensures dateValue == None && numberValue == None && booleanValue == None && classValue == None
      ensures GetValue() == Ok(StringValue(v))
    {
      property, dynamicLabels, language, index := Some(p), Some({p}), lang, idx;
      dataType, stringValue := Some("string"), Some(v);
      dateValue, numberValue, booleanValue, classValue := None, None, None, None;
    }

    /** Annotation(property, instant, language, index). */
    constructor OfInstant(p: string, v: Instant, lang: Option<string>, idx: Option<int>)
      ensures Base(p, lang, idx) && dataType == Some("date_time") && dateValue == Some(v)
      ensures stringValue == None && numberValue == None && booleanValue == None && classValue == None
      ensures GetValue() == Ok(DateValue(v))
    {
      property, dynamicLabels, language, index := Some(p), Some({p}), lang, idx;
      dataType, dateValue := Some("date_time"), Some(v);
      stringValue, numberValue, booleanValue, classValue := None, None, None, None;
    }

    /** Annotation(property, localDateTime, language, index): the local time is
        read as UTC. */
    constructor OfLocalDateTime(p: string, v: LocalDateTime, lang: Option<string>, idx: Option<int>)
      ensures Base(p, lang, idx) && dataType == Some("date_time") && dateValue == Some(ToInstantAtUtc(v))
      ensures stringValue == None && numberValue == None && booleanValue == None && classValue == None
      ensures GetValue() == Ok(DateValue(Instant(v.localEpochSecond, v.nano)))
    {
      property, dynamicLabels, language, index := Some(p), Some({p}), lang, idx;
      dataType, dateValue := Some("date_time"), Some(ToInstantAtUtc(v));
      stringValue, numberValue, booleanValue, classValue := None, None, None, None;
    }

    /** Annotation(property, numberValue, language, index). */
    constructor OfNumber(p: string, v: Double, lang: Option<string>, idx: Option<int>)
      ensures Base(p, lang, idx) && dataType == Some("number") && numberValue == Some(v)
      ensures stringValue == None && dateValue == None && booleanValue == None && classValue == None
      ensures GetValue() == Ok(NumberValue(v))
    {
      property, dynamicLabels, language, index := Some(p), Some({p}), lang, idx;
      dataType, numberValue := Some("number"), Some(v);
      stringValue, dateValue, booleanValue, classValue := None, None, None, None;
    }

    /** Annotation(property, booleanValue, language, index) as written: the tag is
        "number" although the value goes to booleanValue, so getValue reads the
        unset number field and returns null. */
    constructor OfBoolean(p: string, v: bool, lang: Option<string>, idx: Option<int>)
      ensures Base(p, lang, idx) && dataType == Some("number") && booleanValue == Some(v)
      ensures stringValue == None && dateValue == None && numberValue == None && classValue == None
      ensures GetValue() == Ok(Null)
    {
      property, dynamicLabels, language, index := Some(p), Some({p}), lang, idx;
      dataType, booleanValue := Some("number"), Some(v);
      stringValue, dateValue, numberValue, classValue := None, None, None, None;
    }

    /** The Boolean constructor with the evidently intended tag "boolean", under
        which getValue returns the boolean. */
    constructor OfBooleanIntended(p: string, v: bool, lang: Option<string>, idx: Option<int>)
      ensures Base(p, lang, idx) && dataType == Some("boolean") && booleanValue == Some(v)
      ensures stringValue == None && dateValue == None && numberValue == None && classValue == None
      ensures GetValue() == Ok(BooleanValue(v))
    {
      property, dynamicLabels, language, index := Some(p), Some({p}), lang, idx;
      dataType, booleanValue := Some("boolean"), Some(v);
      stringValue, dateValue, numberValue, classValue := None, None, None, None;
    }

    /** Annotation(property, classValue, language, index). */
    constructor OfClass(p: string, v: ClassRef, lang: Option<string>, idx: Option<int>)
      ensures Base(p, lang, idx) && dataType == Some("class") && classValue == Some(v)
      ensures stringValue == None && dateValue == None && numberValue == None && booleanValue == None
      ensures GetValue() == Ok(ClassValue(v))
    {
      property, dynamicLabels, language, index := Some(p), Some({p}), lang, idx;
      dataType, classValue := Some("class"), Some(v);
      stringValue, dateValue, numberValue, booleanValue := None, None, None, None;
    }

    /** Annotation(property, datatype): only the property and the tag are set. */
    constructor OfDatatype(p: string, t: Option<string>)
      ensures property == Some(p) && dynamicLabels == Some({p}) && dataType == t
      ensures stringValue == None && dateValue == None && numberValue == None
      ensures booleanValue == None && classValue == None && language == None && index == None
      ensures t.Some? ==> GetValue() == Ok(Null)
    {
      property, dynamicLabels, dataType := Some(p), Some({p}), t;
      stringValue, dateValue, numberValue, booleanValue, classValue := None, None, None, None, None;
      language, index := None, None;
    }

    /** setProperty: the property becomes the one dynamic label. */
    method SetProperty(p: string) returns (self: Annotation)
      modifies this
      ensures self == this
      ensures State() == old(State()).(property := Some(p), dynamicLabels := Some({p}))
    {
      property := Some(p);
      dynamicLabels := Some({p});
      self := this;
    }

    method SetDatatype(t: Option<string>) returns (self: Annotation)
      modifies this
      ensures self == this && State() == old(State()).(dataType := t)
    {
      dataType := t;
      self := this;
    }

    method SetStringValue(v: Option<string>) returns (self: Annotation)
      modifies this
      ensures self == this && State() == old(State()).(stringValue := v)
    {
      stringValue := v;
      self := this;
    }

    method SetDateValue(v: Option<Instant>) returns (self: Annotation)
      modifies this
      ensures self == this && State() == old(State()).(dateValue := v)
    {
      dateValue := v;
      self := this;
    }

    method SetNumberValue(v: Option<Double>) returns (self: Annotation)
      modifies this
      ensures self == this && State() == old(State()).(numberValue := v)
    {
      numberValue := v;
      self := this;
    }

    method SetBooleanValue(v: Option<bool>) returns (self: Annotation)
      modifies this
      ensures self == this && State() == old(State()).(booleanValue := v)
    {
      booleanValue := v;
      self := this;
    }

    method SetClassValue(v: Option<ClassRef>) returns (self: Annotation)
      modifies this
      ensures self == this && State() == old(State()).(classValue := v)
    {
      classValue := v;
      self := this;
    }

    method SetLanguage(v: Option<string>) returns (self: Annotation)
      modifies this
      ensures self == this && State() == old(State()).(language := v)
    {
      language := v;
      self := this;
    }

    method SetIndex(v: Option<int>) returns (self: Annotation)
      modifies this
      ensures self == this && State() == old(State()).(index := v)
    {
      index := v;
      self := this;
    }
  }

  /** The three-argument constructors: the four-argument ones with a null index. */
  method NewString(p: string, v: string, lang: Option<string>) returns (a: Annotation)
    ensures fresh(a) && a.Base(p, lang, None) && a.GetValue() == Ok(StringValue(v))
  {
    a := new Annotation.OfString(p, v, lang, None);
  }

  method NewInstant(p: string, v: Instant, lang: Option<string>) returns (a: Annotation)
    ensures fresh(a) && a.Base(p, lang, None) && a.GetValue() == Ok(DateValue(v))
  {
    a := new Annotation.OfInstant(p, v, lang, None);
  }

  method NewLocalDateTime(p: string, v: LocalDateTime, lang: Option<string>) returns (a: Annotation)
    ensures fresh(a) && a.Base(p, lang, None) && a.GetValue() == Ok(DateValue(ToInstantAtUtc(v)))
  {
    a := new Annotation.OfLocalDateTime(p, v, lang, None);
  }

  method NewNumber(p: string, v: Double, lang: Option<string>) returns (a: Annotation)
    ensures fresh(a) && a.Base(p, lang, None) && a.GetValue() == Ok(NumberValue(v))
  {
    a := new Annotation.OfNumber(p, v, lang, None);
  }

  method NewBoolean(p: string, v: bool, lang: Option<string>) returns (a: Annotation)
    ensures fresh(a) && a.Base(p, lang, None) && a.booleanValue == Some(v) && a.GetValue() == Ok(Null)
  {
    a := new Annotation.OfBoolean(p, v, lang, None);
  }

  method NewClass(p: string, v: ClassRef, lang: Option<string>) returns (a: Annotation)
    ensures fresh(a) && a.Base(p, lang, None) && a.GetValue() == Ok(ClassValue(v))
  {
    a := new Annotation.OfClass(p, v, lang, None);
  }

  /** The boolean stored by the Boolean constructor as written cannot be read
      back through getValue, whichever boolean it was. */
  method BooleanValueIsLost(v: bool) returns (stored: Option<bool>, read: Result<Value>)
    ensures stored == Some(v) && read == Ok(Null)
  {
    var a := new Annotation.OfBoolean("flag", v, None, None);
    stored := a.booleanValue;
    read := a.GetValue();
  }

  /** With the tag set after construction, the value written by the Boolean
      constructor becomes visible: the constructor and setDatatype("boolean")
      give the intended annotation. */
  method RetaggedBooleanIsRead(v: bool) returns (read: Result<Value>)
    ensures read == Ok(BooleanValue(v))
  {
    var a := new Annotation.OfBoolean("flag", v, None, None);
    var _ := a.SetDatatype(Some("boolean"));
    read := a.GetValue();
  }
}
