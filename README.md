# Pizza restaurant backend — a Dafny model

A model of a small CRUD backend. It keeps restaurants, pizzas, and the links
between them (a "restaurant pizza": one restaurant, one pizza, and the price
that restaurant charges). The backend offers five HTTP handlers. The model
covers the record kinds and their serialisers (`server/models.py`) and the
handler bodies (`server/app.py`), as the code is written.

## What is modelled

- **Records and tables** (`models.dfy`, module `Models`). `Restaurant`,
  `Pizza` and `RestaurantPizza` are datatypes. `Tables` holds three maps from
  primary key to row. `WellFormed` is the store invariant: each row is filed
  under its own id, and every stored link has a price in [1, 30]. The
  NOT NULL columns always hold values because the record fields are plain
  `int`s and `string`s. `InsertRestaurantPizzaRow` is the commit's INSERT of
  a new link: the sqlite3 driver cannot bind an id outside SQLite's signed
  64-bit INTEGER range (`FitsInteger`) and raises `OverflowError`, and a null
  id fails the NOT NULL check.
- **Relationships.** `LinksOfRestaurant` and `LinksOfPizza` give the link
  collections of a restaurant or a pizza, found by filtering the links on
  `restaurant_id` or `pizza_id`. `PizzaOf` and `RestaurantOf` follow a link's
  foreign keys and give `None` when the row is missing. `PizzasOfRestaurant`
  is the association proxy `Restaurant.pizzas`.
- **Serialisers.** `PizzaToDict`, `RestaurantToDict` and
  `RestaurantPizzaToDict` return a JSON `Value` (module `Json`), or a
  `Result` holding the Python exception the code raises.
  `Restaurant.to_dict` calls `to_dict(include_restaurant=False)` on each item
  of `Restaurant.pizzas`. Those items are `Pizza` objects, and
  `Pizza.to_dict` takes no such keyword. So serialising a restaurant raises
  `TypeError` as soon as it has one link. If that link's pizza row is
  missing, the item is `None` and the error is `AttributeError` instead. The
  exception climbs out through `RestaurantPizza.to_dict` (the nested
  restaurant) and through every handler that serialises a restaurant.
- **Cascade rules.** `CascadeDeleteRestaurant` and `CascadeDeletePizza` are
  the `cascade="all, delete"` relationships: deleting a row deletes the links
  that refer to it.
- **Row order and row keys** (`rows.dfy`, module `Rows`). SQLite keeps a
  table with an INTEGER primary key in key order. A plain query returns rows
  in ascending key order (`InKeyOrder`). A new row gets one more than the
  largest key, or 1 if the table is empty (`NextKey`).
- **Handlers** (`app.dfy`, module `App`). A handler ends in an `Outcome`:
  either a `Response(status, body)` or an `Uncaught` exception, which the
  framework turns into a 500 page. The read-only handlers `GetRestaurants`,
  `GetRestaurant` and `GetPizzas` are functions of the tables, so they cannot
  change the store. The two writing handlers are specified by
  `DeleteRestaurantResult` and `PostRestaurantPizzaResult`. Each of those
  gives a `Step`: the outcome plus the tables afterwards. They are carried
  out in place by the `Store` class, which holds the three maps as fields
  (`Store.DeleteRestaurant`, `Store.PostRestaurantPizza`). Each method's
  postcondition ties its outcome and new state to the specifying function.
  The route `/restaurants/<int:id>` accepts an id of any size; the query of
  `GET` and `DELETE` binds it, so an id outside the 64-bit range makes either
  handler raise `OverflowError`, uncaught, with the store unchanged.

### Where the code and the intended design disagree

The model follows the code in each case below:

- The intended design has a restaurant's form embed its links, each with
  its pizza. The code's `Restaurant.to_dict` raises for any restaurant that
  has a link. So `GET /restaurants` answers 500 once any restaurant has a
  link. `GET /restaurants/<id>` lets the exception escape, because its
  serialisation is outside any `try`.
- The intended design has a successful `POST /restaurant_pizzas` answer 201
  with the new link's form, including its restaurant. In the code the link
  is committed first. Serialising it then serialises its restaurant, and that
  restaurant now has a link, so it raises. The handler answers 400 and the
  link stays stored (`PostForExistingRestaurantStoresLinkButFails`). The
  handler answers 201 only when `restaurant_id` names no restaurant. The
  form's `restaurant` is then `null`.
- The intended design rejects foreign keys that point nowhere. The code
  checks none: SQLite does not enforce foreign keys by default. A link may
  name a missing restaurant or pizza, and its nested form is then `null`.
  `NoOrphans` states foreign-key integrity. This is not an invariant of the
  store here. The cascade rules preserve it when it holds.

## Model

| member | source | states |
|---|---|---|
| Models.ValidatePrice | server/models.py:88-92 | accepts a price exactly when 1 <= price <= 30 and returns it unchanged; otherwise raises ValueError |
| Models.InsertRestaurantPizzaRow | server/models.py:73-78 | a new link row is written exactly when restaurant_id and pizza_id are both non-null integers within the signed 64-bit range, with the given id, price and ids; an id outside that range raises OverflowError (checked first, when the driver binds); otherwise a null id raises IntegrityError |
| Models.PizzasOfRestaurant | server/models.py:29-30 | the proxy yields one item per link of the restaurant; the first is the pizza (or None) of the lowest-keyed link |
| Models.LinksOfRestaurant | server/models.py:25-27 | `Restaurant.restaurant_pizzas`: exactly the stored links whose restaurant_id is the restaurant's id |
| Models.LinksOfPizza | server/models.py:52-54 | `Pizza.restaurant_pizzas`: exactly the stored links whose pizza_id is the pizza's id |
| Models.PizzaOf | server/models.py:100 | `self.pizza`: the pizza row pizza_id names, or None exactly when there is none |
| Models.RestaurantOf | server/models.py:101 | `self.restaurant`: the restaurant row restaurant_id names, or None exactly when there is none |
| Models.ToDictExcludingRestaurant | server/models.py:40 | `rp.to_dict(include_restaurant=False)` on an item of `Restaurant.pizzas` never returns: TypeError exactly when the item is a Pizza (whose `to_dict`, models.py:62, takes no keyword), AttributeError when it is None |
| Models.PizzaToDict | server/models.py:62-67 | the form has exactly the keys id, name, ingredients, holding the stored values, so it has no link or restaurant field |
| Models.RestaurantToDict | server/models.py:35-41 | succeeds exactly when the restaurant has no link, with exactly the keys id, name, address, restaurant_pizzas and an empty list; otherwise raises TypeError, or AttributeError when the first link's pizza is missing |
| Models.RestaurantPizzaToDict | server/models.py:94-102 | succeeds exactly when the link's restaurant is absent or has no links; the form has exactly the keys id, price, pizza_id, restaurant_id, pizza, restaurant; pizza and restaurant hold the related record's form or null; a failure is the nested restaurant's exception |
| Models.StoredLinkWithRestaurantFails | server/models.py:101 | serialising a stored link whose restaurant exists always raises, because that restaurant has at least this link |
| Models.CascadeDeleteRestaurant | server/models.py:25-27 | removes the restaurant and exactly the links whose restaurant_id is it; other restaurants, all pizzas and the other links are unchanged; keeps the store invariant and foreign-key integrity |
| Models.CascadeDeletePizza | server/models.py:52-54 | removes the pizza and exactly the links whose pizza_id is it; everything else is unchanged; keeps the store invariant and foreign-key integrity |
| Rows.InKeyOrder | server/app.py:24 | the rows of a table as a query returns them: every key once, in strictly ascending order |
| Rows.NextKey | server/models.py:73 | the key a new link row gets is one more than the largest existing key, so it is larger than every key and fresh; 1 in an empty table |
| Wrappers.Get | server/app.py:54 | `data.get` gives the stored value exactly when the key is present |
| App.RestaurantResults | server/app.py:24 | one result per restaurant in the given order, each the outcome of that restaurant's `to_dict` |
| App.PizzaForms | server/app.py:47 | one form per pizza in the given order, each that pizza's `to_dict` |
| App.ComparisonError | server/app.py:55 | `1 <= price` with a price that is not a number raises TypeError |
| Wrappers.Collect | server/app.py:24 | a comprehension whose element may raise succeeds exactly when every element does, and then gives the values in order; otherwise it gives the first exception, with every earlier element succeeding |
| App.RetrieveFailure | server/app.py:26-27 | the failure body is {"error": m} with m starting with "Failed to retrieve restaurants: " |
| App.AllRestaurantsInOrder | server/app.py:24 | every restaurant in row order serialises exactly when no restaurant has a link |
| App.GetRestaurants | server/app.py:22-27 | 200 with every restaurant's form in row order exactly when no restaurant has a link; otherwise 500 with the prefixed "error" body |
| App.GetRestaurant | server/app.py:31-35 | an id outside the 64-bit range raises OverflowError uncaught; a missing id gives 404 {"error": "Restaurant not found"}; a restaurant without links gives 200 with its form; one with links raises TypeError or AttributeError uncaught |
| App.DeleteRestaurantResult | server/app.py:37-43 | an id outside the 64-bit range raises OverflowError uncaught with the store unchanged; a missing id gives 404 with the store unchanged; an existing one gives 204 with an empty body and the tables after the cascade delete; the store invariant holds after |
| App.DeleteThenGetIsNotFound | server/app.py:31-43 | after a delete of an id within the 64-bit range, fetching it gives 404 and the restaurant has no links left; an id outside it leaves the store unchanged and fetching it raises OverflowError; every other restaurant stays, with the same links |
| App.GetPizzas | server/app.py:46-48 | 200 with one pizza form per stored pizza, in row order |
| App.CommitAndSerialise | server/app.py:64-68 | for a link whose INSERT succeeds (ids within the 64-bit range), the link is stored under its fresh key and nothing else changes; the answer is 400 when its restaurant exists, else 201 with its form, whose restaurant is null and whose price is the link's |
| App.PostRestaurantPizzaResult | server/app.py:51-68 | a non-integer price raises uncaught; a price outside [1, 30] gives 400 {"errors": ["validation errors"]} with no change; a missing or null id, or one outside the 64-bit range, gives the same with no change; otherwise the link is committed under the next key and then serialised |
| App.PostForExistingRestaurantStoresLinkButFails | server/app.py:64-68 | a POST with a valid price naming an existing restaurant always answers 400; when both ids are within the 64-bit range the table still gains one link and fetching that restaurant now raises; otherwise nothing is stored |
| App.Store.DeleteRestaurant | server/app.py:37-43 | the in-place delete gives the outcome and new tables of DeleteRestaurantResult, including the overflow of an id outside the 64-bit range, and keeps the store invariant |
| App.Store.PostRestaurantPizza | server/app.py:51-68 | the in-place POST gives the outcome and new tables of PostRestaurantPizzaResult and keeps the store invariant |

## Left out

- Flask and flask_restful setup, routing, configuration and the run entry point (server/app.py:9-19, 72-78): these are framework plumbing. Routing is the choice of which handler to call.
- Migrations and database bootstrapping are I/O. The pre-seeded database is the argument of the `Store` constructor.
- JSON encoding through `jsonify` and `make_response` is left out. Bodies are JSON values, and the 204 body `''` is `EmptyBody`.
- The framework's own 500 page for an uncaught exception is left out. The model stops at `Uncaught(e)`.
- Exception messages are CPython 3.10 texts. Only the "Failed to retrieve restaurants: " prefix is promised. The rest of the 500 message is incidental.
- The SQLAlchemy session is not modelled. A commit is an immediate update of the maps. After a failed commit, the session still needs a rollback; that state is not modelled, and the store is simply unchanged.
- The foreign-key naming convention (server/models.py:8-12) is schema metadata only.
- The `serialize_rules` tuples (server/models.py:33, 60, 85) are unused, because every class overrides `to_dict`.
- The association proxy `Pizza.restaurants` (server/models.py:57) is not modelled: no handler or serialiser reads it.
- Pizzas have no delete handler. `CascadeDeletePizza` is the store's rule alone.
- Database errors on reads are not modelled. The 500 answer of `GET /restaurants` arises only from serialisation.
- A request body that is not a JSON object is not modelled. `request.get_json()` would then give `None`, a list, a number, a string or a boolean, and `data.get` would raise `AttributeError`. The payload is always a map.
- JSON booleans and floats are not in `Json.Value`. A float price within range would pass the check. `true` compares as 1.
- App.PostRestaurantPizzaResult: requires `pizza_id` and `restaurant_id`, when present, to be integers or null. SQLite's INTEGER affinity would turn a numeric string such as `"3"` into the integer 3, so that POST would behave like one with the integer; a non-numeric string would be stored as text. An array or object would fail when bound. None of these is modelled.
- App.Store.PostRestaurantPizza: carries the same requirement on the id fields, for the same reason.
- Row keys are unbounded integers. SQLite's behaviour once the largest 64-bit key is taken (it picks a random unused key) is not modelled, and stored keys are not required to lie in the 64-bit range. Ids that come with a request are bounded, as above.
- Row order assumes SQLite's usual ascending-key scan for a query with no ORDER BY. SQL does not guarantee this order.
