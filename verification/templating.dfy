/** The template state of src/templating.rs: a binding map plus a handle on
    Handlebars. Handlebars rendering and Rust's float parser are foreign code
    and are taken as parameters. */
module Templating {
  import opened Wrappers
  import opened Markup

  /** What `str::parse::<f64>` produces when it succeeds. */
  datatype F64 = Finite(value: real) | NonFinite

  /** The two kinds of serde_json value the engine ever stores. */
  datatype Json = Number(value: real) | Str(text: string)

  type Bindings = map<string, Json>

  /** Handlebars' `render_template` and Rust's `parse::<f64>`. */
  datatype Foreign = Foreign(render: (Bindings, string) -> Option<string>,
                             parseF64: string -> Option<F64>)

  datatype TemplateEngine = TemplateEngine(data: Bindings)

  function NewEngine(): (e: TemplateEngine)
    ensures e.data == map[]
  {
    TemplateEngine(map[])
  }

  /** Renders `template` against this engine's bindings; `None` when Handlebars reports an error. */
  function Solve(h: Foreign, e: TemplateEngine, template: string): Option<string> {
    h.render(e.data, template)
  }

  /** `Number::from_f64` refuses NaN and the infinities; the caller falls back to a string. */
  function F64ToJson(v: F64, default: string): (r: Json)
    ensures r.Number? <==> v.Finite?
    ensures r.Number? ==> r.value == v.value
    ensures r.Str? ==> r.text == default
  {
    match v
    case Finite(x) => Number(x)
    case NonFinite => Str(default)
  }

  function StrToJson(h: Foreign, s: string): (r: Json)
    ensures r.Number? <==> h.parseF64(s).Some? && h.parseF64(s).value.Finite?
    ensures r.Number? ==> h.parseF64(s) == Some(Finite(r.value))
    ensures r.Str? ==> r.text == s
  {
    match h.parseF64(s)
    case Some(v) => F64ToJson(v, s)
    case None => Str(s)
  }

  /** `compute_state`: copies the parent's bindings, then for each attribute in
      order renders its value against the PARENT and binds the result under its
      name. Written as a fold over the attribute prefix so that the last
      attribute is the last one inserted, as in the source's loop. */
  function ComputeState(h: Foreign, e: TemplateEngine, attrs: seq<Attr>): (r: Option<TemplateEngine>)
    ensures r.None? <==> exists i :: 0 <= i < |attrs| && Solve(h, e, attrs[i].value).None?
    ensures r.Some? ==> r.value.data.Keys == e.data.Keys + Names(attrs)
    ensures r.Some? ==> forall k :: k in e.data && k !in Names(attrs) ==> r.value.data[k] == e.data[k]
    ensures r.Some? ==> forall i :: 0 <= i < |attrs| && IsLastWithName(attrs, i) ==>
              Solve(h, e, attrs[i].value).Some? &&
              r.value.data[attrs[i].name] == StrToJson(h, Solve(h, e, attrs[i].value).value)
    decreases |attrs|
  {
    if attrs == [] then Some(e)
    else
      var init := attrs[..|attrs| - 1];
      var last := attrs[|attrs| - 1];
      assert attrs == init + [last];
      assert Names(attrs) == Names(init) + {last.name};
      match ComputeState(h, e, init)
      case None => None
      case Some(s) =>
        match Solve(h, e, last.value)
        case None => None
        case Some(v) =>
          assert forall i :: 0 <= i < |init| && IsLastWithName(attrs, i) ==> IsLastWithName(init, i);
          Some(TemplateEngine(s.data[last.name := StrToJson(h, v)]))
  }
}
