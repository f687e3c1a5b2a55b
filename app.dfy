/**
 * The request handlers of the restaurant backend. The read-only handlers are
 * functions of the tables; the two that write (`DELETE /restaurants/<id>` and
 * `POST /restaurant_pizzas`) are specified by functions from the tables before
 * to the response and the tables after, and carried out step by step by the
 * methods of `Store`, which holds the three tables.
 */
module App {
  import opened Wrappers
  import opened Json
  import opened Models
  import Rows

  datatype Body = JsonBody(value: Value) | EmptyBody

  /**
   * How a handler ends: with a response it builds, or with an exception it
   * does not catch (the framework then answers 500 on its own).
   */
  datatype Outcome = Response(status: int, body: Body) | Uncaught(error: Exception)

  /** A handler's outcome and the tables it leaves behind. */
  datatype Step = Step(outcome: Outcome, after: Tables)

  const NotFound: Outcome := Response(404, JsonBody(Obj(map["error" := Str("Restaurant not found")])))

  const ValidationErrors: Outcome := Response(400, JsonBody(Obj(map["errors" := Arr([Str("validation errors")])])))

  const RetrieveFailurePrefix: string := "Failed to retrieve restaurants: "

  /** A body `{"error": m}` whose message `m` starts with `prefix`. */
  predicate IsErrorBodyWithPrefix(b: Body, prefix: string)
  {
    && b.JsonBody? && b.value.Obj? && b.value.fields.Keys == {"error"}
    && b.value.fields["error"].Str? && prefix <= b.value.fields["error"].s
  }

  // ------------------------------------------------------------ GET /restaurants

  /** What the list comprehension of `Restaurants.get` evaluates, one restaurant at a time in row order. */
  function RestaurantResults(t: Tables, order: seq<int>): (rs: seq<Result<Value, Exception>>)
    requires forall i :: 0 <= i < |order| ==> order[i] in t.restaurants
    ensures |rs| == |order|
    ensures forall i :: 0 <= i < |order| ==> rs[i] == RestaurantToDict(t, t.restaurants[order[i]])
  {
    seq(|order|, i requires 0 <= i < |order| => RestaurantToDict(t, t.restaurants[order[i]]))
  }

  /** The body `Restaurants.get` answers with when serialisation raises `e`. */
  function RetrieveFailure(e: Exception): (b: Body)
    ensures IsErrorBodyWithPrefix(b, RetrieveFailurePrefix)
  {
    var message := RetrieveFailurePrefix + e.message;
    assert RetrieveFailurePrefix <= message;
    JsonBody(Obj(map["error" := Str(message)]))
  }

  /** `Restaurants.get`. */
  function GetRestaurants(t: Tables): (o: Outcome)
    requires WellFormed(t)
    ensures o.Response?
    ensures o.status == 200 <==> forall k :: k in t.restaurants ==> LinksOfRestaurant(t, k) == {}
    ensures o.status == 200 ==>
      var order := Rows.InKeyOrder(t.restaurants.Keys);
      && o.body.JsonBody? && o.body.value.Arr? && |o.body.value.items| == |t.restaurants|
      && forall i :: 0 <= i < |order| ==>
           o.body.value.items[i] == RestaurantToDict(t, t.restaurants[order[i]]).value
    ensures o.status != 200 ==> o.status == 500 && IsErrorBodyWithPrefix(o.body, RetrieveFailurePrefix)
  {
    var order := Rows.InKeyOrder(t.restaurants.Keys);
    AllRestaurantsInOrder(t);
    var forms := Collect(RestaurantResults(t, order));
    if forms.Ok? then Response(200, JsonBody(Arr(forms.value)))
    else Response(500, RetrieveFailure(forms.error))
  }

  /** Serialising the restaurants in row order succeeds exactly when no restaurant has a link. */
  lemma AllRestaurantsInOrder(t: Tables)
    requires WellFormed(t)
    ensures forall i :: 0 <= i < |Rows.InKeyOrder(t.restaurants.Keys)| ==> Rows.InKeyOrder(t.restaurants.Keys)[i] in t.restaurants
    ensures (forall i :: 0 <= i < |Rows.InKeyOrder(t.restaurants.Keys)| ==>
               RestaurantToDict(t, t.restaurants[Rows.InKeyOrder(t.restaurants.Keys)[i]]).Ok?)
            <==> forall k :: k in t.restaurants ==> LinksOfRestaurant(t, k) == {}
  {
    var order := Rows.InKeyOrder(t.restaurants.Keys);
    assert forall i :: 0 <= i < |order| ==> order[i] in t.restaurants.Keys;
    if forall k :: k in t.restaurants ==> LinksOfRestaurant(t, k) == {} {
      forall i | 0 <= i < |order| ensures RestaurantToDict(t, t.restaurants[order[i]]).Ok? {
        assert t.restaurants[order[i]].id == order[i];
      }
    } else {
      var k :| k in t.restaurants && LinksOfRestaurant(t, k) != {};
      var i :| 0 <= i < |order| && order[i] == k;
      assert t.restaurants[k].id == k;
      assert RestaurantToDict(t, t.restaurants[k]).Err?;
      assert !RestaurantToDict(t, t.restaurants[Rows.InKeyOrder(t.restaurants.Keys)[i]]).Ok?;
    }
  }

  // -------------------------------------------------------- GET /restaurants/<id>

  /**
   * `RestaurantByID.get`. The query binds `id`, which the route's `int`
   * converter accepts at any size, and raises outside any `try` when it does
   * not fit SQLite's INTEGER; the serialisation is outside any `try` too, so
   * its exception escapes.
   */
  function GetRestaurant(t: Tables, id: int): (o: Outcome)
    requires WellFormed(t)
    ensures !FitsInteger(id) ==> o == Uncaught(IntegerOverflow)
    ensures FitsInteger(id) && id !in t.restaurants ==> o == NotFound
    ensures FitsInteger(id) && id in t.restaurants && LinksOfRestaurant(t, id) == {} ==>
      o == Response(200, JsonBody(RestaurantToDict(t, t.restaurants[id]).value))
    ensures FitsInteger(id) && id in t.restaurants && LinksOfRestaurant(t, id) != {} ==>
      o.Uncaught? && o.error.kind in {TypeError, AttributeError}
  {
    if !FitsInteger(id) then Uncaught(IntegerOverflow)
    else if id !in t.restaurants then NotFound
    else
      match RestaurantToDict(t, t.restaurants[id])
      case Ok(form) => Response(200, JsonBody(form))
      case Err(e) => Uncaught(e)
  }

  // ------------------------------------------------------ DELETE /restaurants/<id>

  /** `RestaurantByID.delete`: its query binds `id` as `RestaurantByID.get`'s does. */
  function DeleteRestaurantResult(t: Tables, id: int): (s: Step)
    requires WellFormed(t)
    ensures !FitsInteger(id) ==> s == Step(Uncaught(IntegerOverflow), t)
    ensures FitsInteger(id) && id !in t.restaurants ==> s == Step(NotFound, t)
    ensures FitsInteger(id) && id in t.restaurants ==>
      s.outcome == Response(204, EmptyBody) && s.after == CascadeDeleteRestaurant(t, id)
    ensures WellFormed(s.after)
  {
    if !FitsInteger(id) then Step(Uncaught(IntegerOverflow), t)
    else if id !in t.restaurants then Step(NotFound, t)
    else Step(Response(204, EmptyBody), CascadeDeleteRestaurant(t, id))
  }

  /**
   * After a delete, fetching the id answers 404, the restaurant has no links
   * left, and every other restaurant keeps its links. An id too large to bind
   * changes nothing, and fetching it fails the same way.
   */
  lemma DeleteThenGetIsNotFound(t: Tables, id: int)
    requires WellFormed(t)
    ensures FitsInteger(id) ==> GetRestaurant(DeleteRestaurantResult(t, id).after, id) == NotFound
    ensures !FitsInteger(id) ==>
      && DeleteRestaurantResult(t, id).after == t
      && GetRestaurant(DeleteRestaurantResult(t, id).after, id) == Uncaught(IntegerOverflow)
    ensures id in t.restaurants && FitsInteger(id) ==> LinksOfRestaurant(DeleteRestaurantResult(t, id).after, id) == {}
    ensures forall other :: other in t.restaurants && other != id ==>
      other in DeleteRestaurantResult(t, id).after.restaurants &&
      LinksOfRestaurant(DeleteRestaurantResult(t, id).after, other) == LinksOfRestaurant(t, other)
  {
  }

  // -------------------------------------------------------------- GET /pizzas

  /** The list comprehension of `Pizzas.get` over the pizzas in row order. */
  function PizzaForms(t: Tables, order: seq<int>): (forms: seq<Value>)
    requires forall i :: 0 <= i < |order| ==> order[i] in t.pizzas
    ensures |forms| == |order|
    ensures forall i :: 0 <= i < |order| ==> forms[i] == PizzaToDict(t.pizzas[order[i]])
  {
    seq(|order|, i requires 0 <= i < |order| => PizzaToDict(t.pizzas[order[i]]))
  }

  /** `Pizzas.get`. */
  function GetPizzas(t: Tables): (o: Outcome)
    ensures o.Response? && o.status == 200 && o.body.JsonBody? && o.body.value.Arr?
    ensures
      var order := Rows.InKeyOrder(t.pizzas.Keys);
      && |o.body.value.items| == |t.pizzas|
      && forall i :: 0 <= i < |order| ==> o.body.value.items[i] == PizzaToDict(t.pizzas[order[i]])
  {
    var order := Rows.InKeyOrder(t.pizzas.Keys);
    assert forall i :: 0 <= i < |order| ==> order[i] in t.pizzas.Keys;
    Response(200, JsonBody(Arr(PizzaForms(t, order))))
  }

  // ------------------------------------------------------ POST /restaurant_pizzas

  /** The id fields of a payload, when present, are integers or `null`. */
  predicate IdFieldsIntOrNull(data: map<string, Value>)
  {
    && ("pizza_id" in data ==> data["pizza_id"].Int? || data["pizza_id"].Null?)
    && ("restaurant_id" in data ==> data["restaurant_id"].Int? || data["restaurant_id"].Null?)
  }

  /** The payload carries an integer price. */
  predicate HasIntPrice(data: map<string, Value>)
  {
    "price" in data && data["price"].Int?
  }

  /** The payload carries integer `pizza_id` and `restaurant_id`. */
  predicate HasIntIds(data: map<string, Value>)
  {
    && "pizza_id" in data && data["pizza_id"].Int?
    && "restaurant_id" in data && data["restaurant_id"].Int?
  }

  /** Both integer ids of the payload fit SQLite's INTEGER. */
  predicate IdsFit(data: map<string, Value>)
    requires HasIntIds(data)
  {
    FitsInteger(data["pizza_id"].i) && FitsInteger(data["restaurant_id"].i)
  }

  /** Python's name for the type of what `data.get('price')` returns. */
  function PythonTypeName(v: Option<Value>): string
  {
    match v
    case None => "NoneType"
    case Some(Null) => "NoneType"
    case Some(Int(_)) => "int"
    case Some(Str(_)) => "str"
    case Some(Arr(_)) => "list"
    case Some(Obj(_)) => "dict"
  }

  /** The exception `1 <= price` raises when `price` is not a number. */
  function ComparisonError(price: Option<Value>): (e: Exception)
    ensures e.kind == TypeError
  {
    Exception(TypeError, "'<=' not supported between instances of 'int' and '" + PythonTypeName(price) + "'")
  }

  /**
   * `session.add`, `commit`, then `to_dict` of a link whose INSERT succeeds
   * (`InsertRestaurantPizzaRow` gave it): the link is stored whatever the
   * serialisation does.
   */
  function CommitAndSerialise(t: Tables, link: RestaurantPizza): (s: Step)
    requires WellFormed(t)
    requires link.id !in t.restaurantPizzas && MinPrice <= link.price <= MaxPrice
    requires FitsInteger(link.restaurantId) && FitsInteger(link.pizzaId)
    ensures WellFormed(s.after)
    ensures s.after.restaurantPizzas.Keys == t.restaurantPizzas.Keys + {link.id}
    ensures s.after.restaurantPizzas[link.id] == link
    ensures forall k :: k in t.restaurantPizzas ==> s.after.restaurantPizzas[k] == t.restaurantPizzas[k]
    ensures s.after.restaurants == t.restaurants && s.after.pizzas == t.pizzas
    ensures link.restaurantId in t.restaurants ==> s.outcome == ValidationErrors
    ensures link.restaurantId !in t.restaurants ==>
      && s.outcome.Response? && s.outcome.status == 201
      && s.outcome.body == JsonBody(RestaurantPizzaToDict(s.after, link).value)
      && s.outcome.body.value.fields["restaurant"] == Null
      && s.outcome.body.value.fields["price"] == Int(link.price)
  {
    var after := t.(restaurantPizzas := t.restaurantPizzas[link.id := link]);
    assert link.id in LinksOfRestaurant(after, link.restaurantId);
    match RestaurantPizzaToDict(after, link)
    case Err(_) => Step(ValidationErrors, after)
    case Ok(form) => Step(Response(201, JsonBody(form)), after)
  }

  /**
   * `RestaurantPizzas.post`. A non-numeric price makes the range test raise,
   * outside the `try`. A missing key raises `KeyError`, an id too large to
   * bind fails the commit with `OverflowError` and a null id fails its
   * NOT NULL check; all are caught. The new link gets the next row key.
   */
  function PostRestaurantPizzaResult(t: Tables, data: map<string, Value>): (s: Step)
    requires WellFormed(t)
    requires IdFieldsIntOrNull(data)
    ensures WellFormed(s.after)
    ensures !HasIntPrice(data) ==> s.outcome.Uncaught? && s.outcome.error.kind == TypeError && s.after == t
    ensures HasIntPrice(data) && !(MinPrice <= data["price"].i <= MaxPrice) ==>
      s == Step(ValidationErrors, t)
    ensures HasIntPrice(data) && !HasIntIds(data) ==> s == Step(ValidationErrors, t)
    ensures HasIntPrice(data) && HasIntIds(data) && !IdsFit(data) ==> s == Step(ValidationErrors, t)
    ensures HasIntPrice(data) && MinPrice <= data["price"].i <= MaxPrice && HasIntIds(data) && IdsFit(data) ==>
      var id := Rows.NextKey(t.restaurantPizzas.Keys);
      && id !in t.restaurantPizzas
      && s == CommitAndSerialise(t, RestaurantPizza(id, data["price"].i, data["restaurant_id"].i, data["pizza_id"].i))
  {
    var price := Get(data, "price");
    if !(price.Some? && price.value.Int?) then Step(Uncaught(ComparisonError(price)), t)
    else if !(1 <= price.value.i <= 30) then Step(ValidationErrors, t)
    else if "pizza_id" !in data || "restaurant_id" !in data then Step(ValidationErrors, t)
    else
      // the price has passed the handler's own range check, so validate_price accepts it
      var validated := ValidatePrice(price.value.i).value;
      var id := Rows.NextKey(t.restaurantPizzas.Keys);
      match InsertRestaurantPizzaRow(id, validated, data["restaurant_id"], data["pizza_id"])
      case Err(_) => Step(ValidationErrors, t)
      case Ok(link) => CommitAndSerialise(t, link)
  }

  /**
   * A `POST /restaurant_pizzas` naming an existing restaurant answers 400 even
   * though it stores the new link, and from then on fetching that restaurant
   * raises: the link's form nests the restaurant's, which fails once the
   * restaurant has a link. Only an id too large to bind makes the 400
   * honest: then nothing is stored.
   */
  lemma PostForExistingRestaurantStoresLinkButFails(t: Tables, data: map<string, Value>)
    requires WellFormed(t)
    requires HasIntPrice(data) && MinPrice <= data["price"].i <= MaxPrice && HasIntIds(data)
    requires data["restaurant_id"].i in t.restaurants
    ensures PostRestaurantPizzaResult(t, data).outcome == ValidationErrors
    ensures IdsFit(data) ==> |PostRestaurantPizzaResult(t, data).after.restaurantPizzas| == |t.restaurantPizzas| + 1
    ensures !IdsFit(data) ==> PostRestaurantPizzaResult(t, data).after == t
    ensures IdsFit(data) ==> GetRestaurant(PostRestaurantPizzaResult(t, data).after, data["restaurant_id"].i).Uncaught?
  {
  }

  // ------------------------------------------------------------------- store

  /** The database the handlers share: the three tables, changed in place by the writing handlers. */
  class Store {
    var restaurants: map<int, Restaurant>
    var pizzas: map<int, Pizza>
    var restaurantPizzas: map<int, RestaurantPizza>

    function Snapshot(): Tables
      reads this
    {
      Tables(restaurants, pizzas, restaurantPizzas)
    }

    ghost predicate Valid()
      reads this
    {
      WellFormed(Snapshot())
    }

    /** A store over pre-seeded tables. */
    constructor (seed: Tables)
      requires WellFormed(seed)
      ensures Valid() && Snapshot() == seed
    {
      restaurants := seed.restaurants;
      pizzas := seed.pizzas;
      restaurantPizzas := seed.restaurantPizzas;
    }

    /** `RestaurantByID.delete`: `session.delete` with its cascade, then `commit`. */
    method DeleteRestaurant(id: int) returns (o: Outcome)
      requires Valid()
      modifies this
      ensures Valid()
      ensures Step(o, Snapshot()) == DeleteRestaurantResult(old(Snapshot()), id)
    {
      if !FitsInteger(id) {
        return Uncaught(IntegerOverflow);
      }
      if id !in restaurants {
        return NotFound;
      }
      // the cascade on Restaurant.restaurant_pizzas takes the restaurant's links along
      var doomed := LinksOfRestaurant(Snapshot(), id);
      restaurantPizzas := restaurantPizzas - doomed;
      restaurants := restaurants - {id};
      assert restaurantPizzas == CascadeDeleteRestaurant(old(Snapshot()), id).restaurantPizzas;
      return Response(204, EmptyBody);
    }

    /** `RestaurantPizzas.post`: checks, `session.add`, `commit`, then serialisation. */
    method PostRestaurantPizza(data: map<string, Value>) returns (o: Outcome)
      requires Valid()
      requires IdFieldsIntOrNull(data)
      modifies this
      ensures Valid()
      ensures Step(o, Snapshot()) == PostRestaurantPizzaResult(old(Snapshot()), data)
    {
      var price := Get(data, "price");
      if !(price.Some? && price.value.Int?) {
        return Uncaught(ComparisonError(price));
      }
      if !(1 <= price.value.i <= 30) {
        return ValidationErrors;
      }
      if "pizza_id" !in data || "restaurant_id" !in data {
        return ValidationErrors;
      }
      var validated := ValidatePrice(price.value.i).value;
      var id := Rows.NextKey(restaurantPizzas.Keys);
      var row := InsertRestaurantPizzaRow(id, validated, data["restaurant_id"], data["pizza_id"]);
      if row.Err? {
        return ValidationErrors;
      }
      restaurantPizzas := restaurantPizzas[id := row.value];
      var form := RestaurantPizzaToDict(Snapshot(), row.value);
      if form.Err? {
        return ValidationErrors;
      }
      return Response(201, JsonBody(form.value));
    }
  }
}
