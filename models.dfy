/**
 * The three record kinds of the restaurant backend, the rules the database
 * schema and the ORM relationships impose on them, and the hand-written
 * `to_dict` serialisers, modelled as they are written.
 */
module Models {
  import opened Wrappers
  import opened Json
  import Rows

  datatype Restaurant = Restaurant(id: int, name: string, address: string)

  datatype Pizza = Pizza(id: int, name: string, ingredients: string)

  /** The link between a restaurant and a pizza, with the price the restaurant charges. */
  datatype RestaurantPizza = RestaurantPizza(id: int, price: int, restaurantId: int, pizzaId: int)

  /** The `restaurants`, `pizzas` and `restaurant_pizzas` tables, each keyed by primary key. */
  datatype Tables = Tables(
    restaurants: map<int, Restaurant>,
    pizzas: map<int, Pizza>,
    restaurantPizzas: map<int, RestaurantPizza>)

  datatype ExceptionKind = ValueError | TypeError | AttributeError | KeyError | IntegrityError | OverflowError

  /** A Python exception; `message` is what `str(e)` gives. */
  datatype Exception = Exception(kind: ExceptionKind, message: string)

  /** The range of SQLite's INTEGER storage class: signed 64-bit. */
  const MinInteger := -0x8000_0000_0000_0000
  const MaxInteger := 0x7FFF_FFFF_FFFF_FFFF

  /** A Python `int` the sqlite3 driver can bind as a query parameter. */
  predicate FitsInteger(i: int)
  {
    MinInteger <= i <= MaxInteger
  }

  /** What the sqlite3 driver raises when it is asked to bind an `int` outside that range. */
  const IntegerOverflow := Exception(OverflowError, "Python int too large to convert to SQLite INTEGER")

  /** A JSON value given as an integer column's parameter that the driver cannot bind. */
  predicate Unbindable(v: Value)
  {
    v.Int? && !FitsInteger(v.i)
  }

  const MinPrice := 1
  const MaxPrice := 30

  /**
   * What every table the model produces satisfies: each row sits under its
   * own primary key, and every stored link has passed `validate_price`.
   * The NOT NULL columns hold values by construction of the record types.
   */
  predicate WellFormed(t: Tables)
  {
    && (forall k :: k in t.restaurants ==> t.restaurants[k].id == k)
    && (forall k :: k in t.pizzas ==> t.pizzas[k].id == k)
    && (forall k :: k in t.restaurantPizzas ==>
          t.restaurantPizzas[k].id == k && MinPrice <= t.restaurantPizzas[k].price <= MaxPrice)
  }

  /** Every link refers to a restaurant and a pizza that exist (foreign-key integrity, which SQLite does not enforce by default). */
  predicate NoOrphans(t: Tables)
  {
    forall k :: k in t.restaurantPizzas ==>
      t.restaurantPizzas[k].restaurantId in t.restaurants && t.restaurantPizzas[k].pizzaId in t.pizzas
  }

  // ---------------------------------------------------------------- validation

  /** `RestaurantPizza.validate_price`, run by the ORM whenever `price` is assigned. */
  function ValidatePrice(value: int): (r: Result<int, Exception>)
    ensures r.Ok? <==> MinPrice <= value <= MaxPrice
    ensures r.Ok? ==> r.value == value
    ensures r.Err? ==> r.error.kind == ValueError
  {
    if !(1 <= value <= 30) then Err(Exception(ValueError, "Price must be between 1 and 30."))
    else Ok(value)
  }

  /**
   * The row a commit writes for a new link, or the error the INSERT raises.
   * The driver binds every parameter before SQLite runs the statement, so an
   * id outside the 64-bit range fails first; then `restaurant_id` and
   * `pizza_id` are NOT NULL columns, checked in column order.
   */
  function InsertRestaurantPizzaRow(id: int, price: int, restaurantId: Value, pizzaId: Value): (r: Result<RestaurantPizza, Exception>)
    requires restaurantId.Int? || restaurantId.Null?
    requires pizzaId.Int? || pizzaId.Null?
    ensures r.Ok? <==>
      restaurantId.Int? && pizzaId.Int? && FitsInteger(restaurantId.i) && FitsInteger(pizzaId.i)
    ensures r.Ok? ==> r.value == RestaurantPizza(id, price, restaurantId.i, pizzaId.i)
    ensures r.Err? ==> r.error.kind in {OverflowError, IntegrityError}
    ensures r.Err? ==> (r.error.kind == OverflowError <==> Unbindable(restaurantId) || Unbindable(pizzaId))
  {
    if Unbindable(restaurantId) || Unbindable(pizzaId) then Err(IntegerOverflow)
    else if restaurantId.Null? then
      Err(Exception(IntegrityError, "NOT NULL constraint failed: restaurant_pizzas.restaurant_id"))
    else if pizzaId.Null? then
      Err(Exception(IntegrityError, "NOT NULL constraint failed: restaurant_pizzas.pizza_id"))
    else
      Ok(RestaurantPizza(id, price, restaurantId.i, pizzaId.i))
  }

  // ------------------------------------------------------------- relationships

  /** Keys of the links whose `restaurant_id` is `restaurantId`: `Restaurant.restaurant_pizzas`. */
  function LinksOfRestaurant(t: Tables, restaurantId: int): (r: set<int>)
    ensures r <= t.restaurantPizzas.Keys
    ensures forall k :: k in t.restaurantPizzas ==> (k in r <==> t.restaurantPizzas[k].restaurantId == restaurantId)
  {
    set k | k in t.restaurantPizzas && t.restaurantPizzas[k].restaurantId == restaurantId
  }

  /** Keys of the links whose `pizza_id` is `pizzaId`: `Pizza.restaurant_pizzas`. */
  function LinksOfPizza(t: Tables, pizzaId: int): (r: set<int>)
    ensures r <= t.restaurantPizzas.Keys
    ensures forall k :: k in t.restaurantPizzas ==> (k in r <==> t.restaurantPizzas[k].pizzaId == pizzaId)
  {
    set k | k in t.restaurantPizzas && t.restaurantPizzas[k].pizzaId == pizzaId
  }

  /** `RestaurantPizza.pizza`: the row `pizza_id` refers to, `None` when there is none. */
  function PizzaOf(t: Tables, link: RestaurantPizza): (r: Option<Pizza>)
    ensures r.Some? <==> link.pizzaId in t.pizzas
    ensures r.Some? ==> r.value == t.pizzas[link.pizzaId]
  {
    if link.pizzaId in t.pizzas then Some(t.pizzas[link.pizzaId]) else None
  }

  /** `RestaurantPizza.restaurant`: the row `restaurant_id` refers to, `None` when there is none. */
  function RestaurantOf(t: Tables, link: RestaurantPizza): (r: Option<Restaurant>)
    ensures r.Some? <==> link.restaurantId in t.restaurants
    ensures r.Some? ==> r.value == t.restaurants[link.restaurantId]
  {
    if link.restaurantId in t.restaurants then Some(t.restaurants[link.restaurantId]) else None
  }

  /**
   * The association proxy `Restaurant.pizzas`: for each of the restaurant's
   * links, in row order, the pizza it refers to.
   */
  function PizzasOfRestaurant(t: Tables, restaurantId: int): (r: seq<Option<Pizza>>)
    ensures |r| == |LinksOfRestaurant(t, restaurantId)|
    ensures |r| > 0 ==> r[0] == PizzaOf(t, t.restaurantPizzas[Rows.Minimum(LinksOfRestaurant(t, restaurantId))])
  {
    var keys := LinksOfRestaurant(t, restaurantId);
    var order := Rows.InKeyOrder(keys);
    FirstInKeyOrder(keys);
    assert forall i :: 0 <= i < |order| ==> order[i] in keys;
    seq(|order|, i requires 0 <= i < |order| => PizzaOf(t, t.restaurantPizzas[order[i]]))
  }

  lemma FirstInKeyOrder(keys: set<int>)
    ensures keys != {} ==> Rows.InKeyOrder(keys)[0] == Rows.Minimum(keys)
  {
  }

  // ------------------------------------------------------------- serialisation

  /** `Pizza.to_dict`. */
  function PizzaToDict(p: Pizza): (r: Value)
    ensures r.Obj? && r.fields.Keys == {"id", "name", "ingredients"}
    ensures r.fields["id"] == Int(p.id) && r.fields["name"] == Str(p.name)
    ensures r.fields["ingredients"] == Str(p.ingredients)
  {
    Obj(map["id" := Int(p.id), "name" := Str(p.name), "ingredients" := Str(p.ingredients)])
  }

  /**
   * What `rp.to_dict(include_restaurant=False)` raises for an item `rp` of
   * `Restaurant.pizzas`. The item is a `Pizza`, whose `to_dict` takes no
   * keyword argument, or `None` for a link whose pizza row is missing; so the
   * call never returns a value.
   */
  function ToDictExcludingRestaurant(item: Option<Pizza>): (e: Exception)
    ensures e.kind in {TypeError, AttributeError}
    ensures e.kind == TypeError <==> item.Some?
  {
    match item
    case Some(_) => Exception(TypeError, "Pizza.to_dict() got an unexpected keyword argument 'include_restaurant'")
    case None => Exception(AttributeError, "'NoneType' object has no attribute 'to_dict'")
  }

  /**
   * `Restaurant.to_dict`. Its list comprehension calls
   * `to_dict(include_restaurant=False)` on the items of `Restaurant.pizzas`
   * in order; the first call raises, so the comprehension is the empty list
   * or that exception.
   */
  function RestaurantToDict(t: Tables, r: Restaurant): (res: Result<Value, Exception>)
    ensures res.Ok? <==> LinksOfRestaurant(t, r.id) == {}
    ensures res.Ok? ==> res.value.Obj? && res.value.fields.Keys == {"id", "name", "address", "restaurant_pizzas"}
    ensures res.Ok? ==> res.value.fields["id"] == Int(r.id) && res.value.fields["name"] == Str(r.name)
    ensures res.Ok? ==> res.value.fields["address"] == Str(r.address) && res.value.fields["restaurant_pizzas"] == Arr([])
    ensures res.Err? ==>
      var first := t.restaurantPizzas[Rows.Minimum(LinksOfRestaurant(t, r.id))];
      res.error.kind == (if first.pizzaId in t.pizzas then TypeError else AttributeError)
  {
    var items := PizzasOfRestaurant(t, r.id);
    if |items| == 0 then
      Ok(Obj(map["id" := Int(r.id), "name" := Str(r.name), "address" := Str(r.address),
                 "restaurant_pizzas" := Arr([])]))
    else
      Err(ToDictExcludingRestaurant(items[0]))
  }

  /** The `restaurant_pizzas` form before its nested `pizza` and `restaurant` values are known. */
  function LinkFields(link: RestaurantPizza, pizza: Value, restaurant: Value): Value
  {
    Obj(map["id" := Int(link.id), "price" := Int(link.price), "pizza_id" := Int(link.pizzaId),
            "restaurant_id" := Int(link.restaurantId), "pizza" := pizza, "restaurant" := restaurant])
  }

  /** `RestaurantPizza.to_dict`: the nested forms are built in key order, pizza first. */
  function RestaurantPizzaToDict(t: Tables, link: RestaurantPizza): (r: Result<Value, Exception>)
    requires WellFormed(t)
    ensures r.Ok? <==> link.restaurantId !in t.restaurants || LinksOfRestaurant(t, link.restaurantId) == {}
    ensures r.Ok? ==> (r.value.Obj? &&
      r.value.fields.Keys == {"id", "price", "pizza_id", "restaurant_id", "pizza", "restaurant"})
    ensures r.Ok? ==>
      && r.value.fields["id"] == Int(link.id)
      && r.value.fields["price"] == Int(link.price)
      && r.value.fields["pizza_id"] == Int(link.pizzaId)
      && r.value.fields["restaurant_id"] == Int(link.restaurantId)
    ensures r.Ok? ==> (r.value.fields["pizza"] ==
      if link.pizzaId in t.pizzas then PizzaToDict(t.pizzas[link.pizzaId]) else Null)
    ensures r.Ok? ==> (r.value.fields["restaurant"] ==
      if link.restaurantId in t.restaurants then RestaurantToDict(t, t.restaurants[link.restaurantId]).value else Null)
    ensures r.Err? ==>
      && link.restaurantId in t.restaurants
      && RestaurantToDict(t, t.restaurants[link.restaurantId]).Err?
      && r.error == RestaurantToDict(t, t.restaurants[link.restaurantId]).error
  {
    var pizza := match PizzaOf(t, link) case Some(p) => PizzaToDict(p) case None => Null;
    match RestaurantOf(t, link)
    case None => Ok(LinkFields(link, pizza, Null))
    case Some(restaurant) =>
      match RestaurantToDict(t, restaurant)
      case Err(e) => Err(e)
      case Ok(form) => Ok(LinkFields(link, pizza, form))
  }

  /**
   * A stored link whose restaurant exists cannot be serialised: that
   * restaurant has at least this link, so its own `to_dict` raises.
   */
  lemma StoredLinkWithRestaurantFails(t: Tables, k: int)
    requires WellFormed(t)
    requires k in t.restaurantPizzas
    requires t.restaurantPizzas[k].restaurantId in t.restaurants
    ensures RestaurantPizzaToDict(t, t.restaurantPizzas[k]).Err?
    ensures RestaurantPizzaToDict(t, t.restaurantPizzas[k]).error.kind in {TypeError, AttributeError}
  {
    assert k in LinksOfRestaurant(t, t.restaurantPizzas[k].restaurantId);
  }

  // ------------------------------------------------------------ cascade rules

  /**
   * Deleting a restaurant: `cascade="all, delete"` on
   * `Restaurant.restaurant_pizzas` deletes its links with it.
   */
  function CascadeDeleteRestaurant(t: Tables, id: int): (r: Tables)
    ensures r.restaurants.Keys == t.restaurants.Keys - {id}
    ensures forall k :: k in r.restaurants ==> r.restaurants[k] == t.restaurants[k]
    ensures r.pizzas == t.pizzas
    ensures forall k :: k in r.restaurantPizzas <==> k in t.restaurantPizzas && t.restaurantPizzas[k].restaurantId != id
    ensures forall k :: k in r.restaurantPizzas ==> r.restaurantPizzas[k] == t.restaurantPizzas[k]
    ensures LinksOfRestaurant(r, id) == {}
    ensures WellFormed(t) ==> WellFormed(r)
    ensures NoOrphans(t) ==> NoOrphans(r)
  {
    Tables(
      t.restaurants - {id},
      t.pizzas,
      map k | k in t.restaurantPizzas && t.restaurantPizzas[k].restaurantId != id :: t.restaurantPizzas[k])
  }

  /**
   * Deleting a pizza: `cascade="all, delete"` on `Pizza.restaurant_pizzas`
   * deletes its links with it. No handler deletes a pizza; this is the rule
   * the store follows when one is deleted.
   */
  function CascadeDeletePizza(t: Tables, id: int): (r: Tables)
    ensures r.pizzas.Keys == t.pizzas.Keys - {id}
    ensures forall k :: k in r.pizzas ==> r.pizzas[k] == t.pizzas[k]
    ensures r.restaurants == t.restaurants
    ensures forall k :: k in r.restaurantPizzas <==> k in t.restaurantPizzas && t.restaurantPizzas[k].pizzaId != id
    ensures forall k :: k in r.restaurantPizzas ==> r.restaurantPizzas[k] == t.restaurantPizzas[k]
    ensures LinksOfPizza(r, id) == {}
    ensures WellFormed(t) ==> WellFormed(r)
    ensures NoOrphans(t) ==> NoOrphans(r)
  {
    Tables(
      t.restaurants,
      t.pizzas - {id},
      map k | k in t.restaurantPizzas && t.restaurantPizzas[k].pizzaId != id :: t.restaurantPizzas[k])
  }
}
